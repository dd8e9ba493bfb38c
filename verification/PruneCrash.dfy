/** Power loss during a prune: whatever cut it makes, every snapshot still listed can be
    restored. */
module PruneCrash {
  import opened Content
  import opened Repository
  import opened RetentionPlan
  import opened Journal
  import opened PruneSpec
  import opened PruneSteps
  import opened PlanPredicts
  import Listing

  /** Every object of every listed snapshot is stored, with the recorded size and digest. */
  ghost predicate SnapshotRecoverable(d: Disk, n: string) {
    forall i :: 0 <= i < |RowsOf(d, n)| ==>
      RowOk(d, RowsOf(d, n)[i]) && ObjectOk(d, RowsOf(d, n)[i].hash, true)
  }

  ghost predicate Recoverable(d: Disk) {
    forall n :: n in d.snapshots ==> SnapshotRecoverable(d, n)
  }

  /** A prune can start here and its new transaction name is unused. */
  ghost predicate CanStart(d: Disk, policy: Policy, tx: string) {
    Ready(d, policy) && TxNameOk(tx) && tx !in d.retired
  }

  // ----- where the operations of a log stand -----

  lemma {:induction false} RetireOpsAt(names: seq<string>, tx: string, k: nat)
    ensures |RetireOps(names, tx)| == 3 * |names|
    ensures k < |names| ==>
      var ops := RetireOps(names, tx);
      && ops[3 * k] == Retire(names[k], tx) && ops[3 * k + 1] == Sync(TxDir(tx)) && ops[3 * k + 2] == Sync(SnapshotRoot)
  {
    if names != [] {
      var m := |names| - 1;
      RetireOpsAt(names[..m], tx, k);
    }
  }

  predicate SweepOp(op: Op, doomed: set<string>) {
    (op.Unlink? && op.hash in doomed) || (op.Sync? && op.dir.Bucket?)
  }

  predicate CleanOp(op: Op) {
    op.DropFile? || op.DropChild? || op.DropMarker? || op.DropTx? || op.Sync?
  }

  lemma {:induction false} UnlinkEachOps(hashes: seq<string>)
    ensures forall op :: op in UnlinkEach(hashes) ==> op.Unlink? && op.hash in hashes
  {
    if hashes != [] {
      var k := |hashes| - 1;
      UnlinkEachOps(hashes[..k]);
    }
  }

  lemma {:induction false} SweepOpsOnly(objects: set<string>, protected: set<string>, buckets: seq<string>)
    ensures forall op :: op in SweepOps(objects, protected, buckets) ==> SweepOp(op, objects - protected)
  {
    if buckets != [] {
      var k := |buckets| - 1;
      SweepOpsOnly(objects, protected, buckets[..k]);
      UnlinkEachOps(Listing.Of(InBucket(objects, buckets[k]) - protected));
    }
  }

  lemma {:induction false} DropFileOpsOnly(tx: string, name: string, files: seq<string>)
    ensures forall op :: op in DropFileOps(tx, name, files) ==> op.DropFile?
  {
    if files != [] { DropFileOpsOnly(tx, name, files[..|files| - 1]); }
  }

  lemma {:induction false} ChildrenOpsOnly(tx: string, children: map<string, SnapshotNode>, names: seq<string>)
    ensures forall op :: op in ChildrenOps(tx, children, names) ==> CleanOp(op)
  {
    hide Listing.Of;
    if names != [] {
      var k := |names| - 1;
      ChildrenOpsOnly(tx, children, names[..k]);
      if names[k] in children && children[names[k]].SnapshotDir? {
        DropFileOpsOnly(tx, names[k], Listing.Of(children[names[k]].files.Keys));
      }
    }
  }

  lemma {:induction false} FinishAllOpsOnly(retired: map<string, Transaction>, txs: seq<string>)
    ensures forall op :: op in FinishAllOps(retired, txs) ==> CleanOp(op)
  {
    hide Listing.Of;
    if txs != [] {
      var k := |txs| - 1;
      FinishAllOpsOnly(retired, txs[..k]);
      if txs[k] in retired && retired[txs[k]].Transaction? {
        var node := retired[txs[k]];
        ChildrenOpsOnly(txs[k], node.children, Listing.Of(node.children.Keys));
      }
    }
  }

  /** Where each kind of operation can occur in a prune's log. */
  lemma LogShape(d: Disk, policy: Policy, tx: string, i: nat)
    requires i < |PruneLog(d, policy, tx)|
    ensures var op, a := PruneLog(d, policy, tx)[i], MoveOps(Drops(d, policy), tx);
      && (i < |a| ==> op == a[i])
      && (|a| <= i < |a| + |PhaseB(d, policy, tx)| ==> SweepOp(op, d.objects.Keys - Protected(Moved(d, policy, tx))))
      && (|a| + |PhaseB(d, policy, tx)| <= i ==> CleanOp(op))
  {
    hide MoveOps, SweepOps, FinishAllOps, Drops, Protected, Moved, TxList, Listing.Of, SweepOp, CleanOp;
    var a, b, c := MoveOps(Drops(d, policy), tx), PhaseB(d, policy, tx), PhaseC(d, policy, tx);
    LogPhases(d, policy, tx);
    SweepOpsOnly(d.objects.Keys, Protected(Moved(d, policy, tx)), Listing.Of(Buckets(d.objects.Keys)));
    FinishAllOpsOnly(Moved(d, policy, tx).retired, TxList(d, policy, tx));
    var log := PruneLog(d, policy, tx);
    if |a| <= i < |a| + |b| { assert log[i] == b[i - |a|]; }
    if |a| + |b| <= i { assert log[i] == c[i - |a| - |b|]; }
  }

  predicate MoveOp(op: Op, drops: seq<string>, tx: string) {
    || op == MakeRoot || op == MakeTx(tx) || op == PutMarker(tx) || op.Sync?
    || (op.Retire? && op.tx == tx && op.name in drops)
  }

  lemma MoveOpsAt(drops: seq<string>, tx: string, i: nat)
    requires i < |MoveOps(drops, tx)|
    ensures MoveOp(MoveOps(drops, tx)[i], drops, tx)
    ensures MoveOps(drops, tx)[i].Retire? ==>
      && 6 <= i && (i - 6) % 3 == 0 && i + 2 < |MoveOps(drops, tx)| && (i - 6) / 3 < |drops|
      && MoveOps(drops, tx)[i] == Retire(drops[(i - 6) / 3], tx)
      && MoveOps(drops, tx)[i + 1] == Sync(TxDir(tx)) && MoveOps(drops, tx)[i + 2] == Sync(SnapshotRoot)
  {
    hide RetireOps;
    if i >= 6 {
      var k := (i - 6) / 3;
      RetireOpsAt(drops, tx, k);
      var ops := RetireOps(drops, tx);
      assert MoveOps(drops, tx)[i] == ops[i - 6];
      assert i - 6 == 3 * k || i - 6 == 3 * k + 1 || i - 6 == 3 * k + 2;
      assert drops[k] in drops;
      if i - 6 == 3 * k {
        assert MoveOps(drops, tx)[i + 1] == ops[3 * k + 1] && MoveOps(drops, tx)[i + 2] == ops[3 * k + 2];
      }
    }
  }

  /** Where a dropped snapshot is moved, and that the move is then synced. */
  lemma RetireAt(drops: seq<string>, tx: string, name: string) returns (i: nat)
    requires name in drops
    ensures i + 2 < |MoveOps(drops, tx)| && MoveOps(drops, tx)[i] == Retire(name, tx)
    ensures MoveOps(drops, tx)[i + 2] == Sync(SnapshotRoot)
  {
    var k :| 0 <= k < |drops| && drops[k] == name;
    RetireOpsAt(drops, tx, k);
    i := 6 + 3 * k;
  }

  // ----- safety -----

  /** Once an unlink has been issued, every move is on the disk. */
  lemma MovesDurable(d: Disk, policy: Policy, tx: string, n: nat, s: set<nat>, i: nat, name: string)
    requires n <= |PruneLog(d, policy, tx)| && Durable(PruneLog(d, policy, tx)[..n], s)
    requires i < n && PruneLog(d, policy, tx)[i].Unlink? && name in Drops(d, policy)
    ensures Retired(PruneLog(d, policy, tx)[..n], s, name)
  {
    hide MoveOps, Drops, Moved, Protected, PhaseB;
    var log, a := PruneLog(d, policy, tx), MoveOps(Drops(d, policy), tx);
    LogShape(d, policy, tx, i);
    if i < |a| { MoveOpsAt(Drops(d, policy), tx, i); }
    var j := RetireAt(Drops(d, policy), tx, name);
    LogShape(d, policy, tx, j);
    LogShape(d, policy, tx, j + 2);
    var ops := log[..n];
    assert ops[j] == Retire(name, tx) && ops[j + 2] == Sync(SnapshotRoot);
    assert j in s;
  }

  /** An unlinked object is one that no kept snapshot mentions. */
  lemma UnlinkedUnprotected(d: Disk, policy: Policy, tx: string, n: nat, s: set<nat>, h: string) returns (i: nat)
    requires n <= |PruneLog(d, policy, tx)| && Unlinked(PruneLog(d, policy, tx)[..n], s, h)
    ensures i < n && PruneLog(d, policy, tx)[i] == Unlink(h) && h !in Protected(Moved(d, policy, tx))
  {
    hide MoveOps, Drops, Moved, Protected, PhaseB;
    var ops := PruneLog(d, policy, tx)[..n];
    i :| i in s && i < |ops| && ops[i] == Unlink(h);
    LogShape(d, policy, tx, i);
    if i < |MoveOps(Drops(d, policy), tx)| { MoveOpsAt(Drops(d, policy), tx, i); }
  }

  lemma ReadyRecoverable(d: Disk, policy: Policy)
    requires Ready(d, policy)
    ensures Recoverable(d)
  {
    hide PendingOk, ArchiveOk, SnapshotsOk, TotalsOk, Keeps, RowsOf, ShaValid;
    forall n | n in d.snapshots ensures SnapshotRecoverable(d, n) {
      assert RowsOk(d, n);
      forall i | 0 <= i < |RowsOf(d, n)| ensures RowOk(d, RowsOf(d, n)[i]) && ObjectOk(d, RowsOf(d, n)[i].hash, true) {
        assert RowOk(d, RowsOf(d, n)[i]);
      }
    }
  }

  /** Power loss after any number of operations, with any cut, leaves every listed snapshot
      recoverable. */
  lemma CrashSafe(d: Disk, policy: Policy, tx: string, n: nat, s: set<nat>)
    requires CanStart(d, policy, tx)
    requires n <= |PruneLog(d, policy, tx)| && Durable(PruneLog(d, policy, tx)[..n], s)
    ensures Recoverable(Image(d, PruneLog(d, policy, tx)[..n], s))
  {
    hide PruneLog, Ready, Image, Durable, Retired, Unlinked, Moved, Protected, Drops, RowsOf;
    var ops := PruneLog(d, policy, tx)[..n];
    var e := Image(d, ops, s);
    ImageSnapshots(d, ops, s);
    ImageObjects(d, ops, s);
    ReadyRecoverable(d, policy);
    forall m | m in e.snapshots ensures SnapshotRecoverable(e, m) {
      ImageRows(d, e, m);
      assert SnapshotRecoverable(d, m);
      forall i | 0 <= i < |RowsOf(e, m)| ensures RowOk(e, RowsOf(e, m)[i]) && ObjectOk(e, RowsOf(e, m)[i].hash, true) {
        var h := RowsOf(d, m)[i].hash;
        assert RowOk(d, RowsOf(d, m)[i]) && ObjectOk(d, h, true);
        if Unlinked(ops, s, h) {
          RowSurvives(d, policy, tx, n, s, m, i);
        }
      }
    }
  }

  lemma ImageRows(d: Disk, e: Disk, m: string)
    requires m in d.snapshots && m in e.snapshots && e.snapshots[m] == d.snapshots[m]
    ensures RowsOf(e, m) == RowsOf(d, m)
  {
  }

  /** What a snapshot that is not dropped mentions is protected. */
  lemma KeptProtected(d: Disk, policy: Policy, tx: string, m: string, i: nat)
    requires CanStart(d, policy, tx) && m in d.snapshots && i < |RowsOf(d, m)| && m !in Drops(d, policy)
    ensures RowsOf(d, m)[i].hash in Protected(Moved(d, policy, tx))
  {
    hide Ready, Moved, Protected, Drops, RowsOf;
    ProtectedIs(d, policy, tx);
    var h := RowsOf(d, m)[i].hash;
    assert m in d.snapshots.Keys - Elements(Drops(d, policy));
    assert h in HashesOf(RowsOf(d, m));
  }

  /** An object of a snapshot still listed has not been unlinked. */
  lemma RowSurvives(d: Disk, policy: Policy, tx: string, n: nat, s: set<nat>, m: string, i: nat)
    requires CanStart(d, policy, tx) && m in d.snapshots && i < |RowsOf(d, m)|
    requires n <= |PruneLog(d, policy, tx)| && Durable(PruneLog(d, policy, tx)[..n], s)
    requires !Retired(PruneLog(d, policy, tx)[..n], s, m)
    ensures !Unlinked(PruneLog(d, policy, tx)[..n], s, RowsOf(d, m)[i].hash)
  {
    hide PruneLog, Ready, Durable, Retired, Unlinked, Moved, Protected, Drops, RowsOf;
    var h := RowsOf(d, m)[i].hash;
    if Unlinked(PruneLog(d, policy, tx)[..n], s, h) {
      var j := UnlinkedUnprotected(d, policy, tx, n, s, h);
      if m !in Drops(d, policy) {
        KeptProtected(d, policy, tx, m, i);
        assert false;
      }
      MovesDurable(d, policy, tx, n, s, j, m);
      assert false;
    }
  }
}
