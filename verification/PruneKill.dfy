/** A prune that was killed, and another one over what it left, before any restart. */
module PruneKill {
  import opened Repository
  import opened RetentionPlan
  import opened Sums
  import opened Journal
  import opened PruneSpec
  import opened PruneCrash
  import opened PruneRetry
  import opened Power
  import opened PowerPrune

  ghost predicate RenamedLast(log: seq<Op>, n: nat) {
    0 < n <= |log| && log[n - 1].Retire?
  }

  /** A prune stopped after `n` operations, with no earlier rename pending, and then another, of
      whatever policies: the second is safe unless the first was stopped right after a rename
      and the second has nothing to rename. */
  lemma StoppedThenPruned(g: State, acts: seq<Act>, first: Policy, tx: string, n: nat, second: Policy, tx': string)
    requires InOrder(g, acts) && Tracked(g) && PruneStarts(Effects(g, acts), first, tx) && !RenamePending(acts)
    requires IntactAlong(g, acts)
    requires n <= |LogNow(g, acts, first, tx)|
    requires PruneStarts(Effects(g, StoppedAt(acts, LogNow(g, acts, first, tx), n)), second, tx')
    ensures var log := LogNow(g, acts, first, tx); var all := StoppedAt(acts, log, n);
      Safe(g, all, Issues(LogNow(g, all, second, tx'))) <==>
        !(RenamedLast(log, n) && Drops(Effects(g, all).disk, second) == [])
  {
    hide InOrder, Tracked, PruneStarts, PruneLog, AllIntact, Safe, RenamePending, Effects;
    var log := LogNow(g, acts, first, tx);
    var all := acts + Issues(log[..n]);
    assert acts[..|acts|] == acts;
    Reached(g, acts, first, tx, n);
    GuardedIsSafe(g, acts, first, tx);
    SafeMoments(g, acts, Issues(log), n);
    assert Issues(log)[..n] == Issues(log[..n]);
    PendingAfterStop(acts, Effects(g, acts).disk, first, tx, n);
    PruneIsSafeExactly(g, all, second, tx');
  }

  lemma SafeMoments(g: State, acts: seq<Act>, more: seq<Act>, n: nat)
    requires Safe(g, acts, more) && n <= |more| && IntactAlong(g, acts)
    ensures forall m: nat :: m <= |acts| + n ==> AllIntact(g, (acts + more[..n])[..m])
  {
    hide AllIntact;
    var all := acts + more[..n];
    forall m: nat | m <= |acts| + n ensures AllIntact(g, all[..m]) {
      if m <= |acts| { assert all[..m] == acts[..m]; } else { assert all[..m] == acts + more[..m - |acts|]; }
    }
  }

  // ----- from any repository in order -----

  /** A machine just restarted on this repository. */
  function Restarted(d: Disk): State {
    State(d, Buckets(d.objects.Keys), set t, c | t in d.retired && c in ChildrenOf(d, t) :: (c, t),
      map n | n in d.snapshots :: Generation(d.snapshots[n], []))
  }

  lemma RestartedIsInOrder(d: Disk, policy: Policy)
    requires Ready(d, policy)
    ensures Intact(Restarted(d)) && Tracked(Restarted(d)) && InOrder(Restarted(d), [])
    ensures AllIntact(Restarted(d), []) && !RenamePending([])
  {
    hide Ready, RowsOf, ObjectOk, BucketName;
    var g := Restarted(d);
    ReadyRecoverable(d, policy);
    ReadyObjects(d, policy);
    assert Intact(g);
    forall s ensures Left(g, [], s) == g {}
  }

  lemma ReadyObjects(d: Disk, policy: Policy)
    requires Ready(d, policy)
    ensures forall h :: h in d.objects ==> ObjectOk(d, h, true)
  {
    hide PendingOk, SnapshotsOk, ReferencesOk, TotalsOk, Keeps, ArchiveOk, ObjectOk;
  }

  // ----- one prune after a restart -----

  lemma SameCuts(ops: seq<Op>, s: set<nat>)
    ensures Cut(Issues(ops), s) <==> Durable(ops, s)
  {
    hide Touches;
    var acts := Issues(ops);
    if Durable(ops, s) {
      forall i, j, dir | 0 <= i < j < |acts| && dir in Places(acts[i]) && SyncOf(acts[j], dir) ensures i in s {
        assert ops[j].Sync? && ops[j].dir in Touches(ops[i]);
      }
      forall i, j | 0 <= i < j < |acts| && j in s && !(Places(acts[i]) !! Places(acts[j])) ensures i in s {
        assert !(Touches(ops[i]) !! Touches(ops[j]));
      }
    }
    if Cut(acts, s) {
      forall i, j | 0 <= i < j < |ops| && ops[j].Sync? && ops[j].dir in Touches(ops[i]) ensures i in s {
        assert SyncOf(acts[j], ops[j].dir) && ops[j].dir in Places(acts[i]);
      }
      forall i, j | 0 <= i < j < |ops| && j in s && !(Touches(ops[i]) !! Touches(ops[j])) ensures i in s {
        assert !(Places(acts[i]) !! Places(acts[j]));
      }
    }
  }

  lemma NextApplies(e: State, op: Op)
    requires op.DropFile? ==> (op.name, op.tx) in e.renamed
    ensures Effect(e, Issue(op)).disk == Apply(e.disk, op)
  {
  }

  /** A file that the prune removed was one of a snapshot that is retired in every cut. */
  lemma RemovedIsRetired(d: Disk, policy: Policy, tx: string, m: nat, s: set<nat>)
    requires CanStart(d, policy, tx) && m < |PruneLog(d, policy, tx)| && PruneLog(d, policy, tx)[m].DropFile?
    requires Cut(Issues(PruneLog(d, policy, tx)[..m]), s)
    ensures var log := PruneLog(d, policy, tx);
      (log[m].name, log[m].tx) in Left(Restarted(d), Issues(log[..m]), s).renamed
  {
    hide CanStart, PruneLog, Tracked, InOrder, Effects, Left, Cut, Intact, AllIntact, Restarted, Drops, RenamePending,
      PruneStarts;
    var g, log := Restarted(d), PruneLog(d, policy, tx);
    RestartedStarts(d, policy, tx);
    LogInOrder(g, policy, tx, m + 1);
    assert log[..m + 1][..m] == log[..m] && Issues(log[..m + 1])[..m] == Issues(log[..m]);
    FirstInOrder(g, Issues(log[..m + 1]), m);
    InOrderPrefix(g, Issues(log[..m + 1]), m);
    UnlinkIsUnprotected(d, policy, tx, m);
    GuardedSettles(d, [], policy, tx, m);
    assert [] + Issues(log[..m]) == Issues(log[..m]);
    NoneLost(Issues(log[..m]), s);
    ListedIsLive(g, Issues(log[..m]), s);
  }

  lemma RestartedStarts(d: Disk, policy: Policy, tx: string)
    requires CanStart(d, policy, tx)
    ensures PruneStarts(Restarted(d), policy, tx) && Restarted(d).disk == d && Tracked(Restarted(d))
    ensures !RenamePending([])
  {
    hide Ready, TxNameOk, Intact, AllIntact;
    RestartedIsInOrder(d, policy);
    NewIsNew(d, tx);
  }

  lemma BeforeIsCut(ops: seq<Op>, s: set<nat>, m: nat)
    requires Durable(ops, s) && m <= |ops|
    ensures Cut(Issues(ops[..m]), Before(s, m))
  {
    hide Touches;
    assert forall i :: 0 <= i < m ==> ops[..m][i] == ops[i];
    assert Durable(ops[..m], Before(s, m));
    SameCuts(ops[..m], Before(s, m));
  }

  /** For one prune that began right after a restart, the two readings of a power loss agree. */
  lemma {:induction false} LeftIsImage(d: Disk, policy: Policy, tx: string, n: nat, s: set<nat>, m: nat)
    requires CanStart(d, policy, tx) && m <= n <= |PruneLog(d, policy, tx)| && Durable(PruneLog(d, policy, tx)[..n], s)
    ensures Left(Restarted(d), Issues(PruneLog(d, policy, tx)[..m]), s).disk ==
      Image(d, PruneLog(d, policy, tx)[..m], s)
  {
    hide CanStart, PruneLog, Durable, Effect, Apply, Cut, Restarted, Touches;
    var log, g := PruneLog(d, policy, tx), Restarted(d);
    if m == 0 {
      RestartedStarts(d, policy, tx);
    } else {
      var k := m - 1;
      LeftIsImage(d, policy, tx, n, s, k);
      assert log[..m][..k] == log[..k] && Issues(log[..m])[..k] == Issues(log[..k]);
      if k in s {
        BeforeIsCut(log[..n], s, k);
        assert log[..n][..k] == log[..k];
        LeftSame(g, Issues(log[..k]), s, Before(s, k));
        if log[k].DropFile? { RemovedIsRetired(d, policy, tx, k, Before(s, k)); }
        NextApplies(Left(g, Issues(log[..k]), s), log[k]);
      }
    }
  }

  // ----- killed after the last rename, and run again -----

  /** The first prune's acts, up to and with its last rename. */
  function UpToLastRename(d: Disk, k: int, tx: string): seq<Op> {
    var n := 6 + 3 * |DropNames(d, k)| - 2;
    if 0 <= n <= |PruneLog(d, KeepLast(k), tx)| then PruneLog(d, KeepLast(k), tx)[..n] else []
  }

  lemma LastRenameAt(d: Disk, k: int, tx: string)
    requires CanStart(d, KeepLast(k), tx) && DropNames(d, k) != []
    ensures var drops, log := DropNames(d, k), PruneLog(d, KeepLast(k), tx); var n := 6 + 3 * |drops| - 2;
      && n <= |log| && log[n - 1] == Retire(drops[|drops| - 1], tx)
      && forall i :: 0 <= i < n ==> MoveOp(log[i], drops, tx)
  {
    hide Ready, PruneLog, MoveOps, TxNameOk, DropNames, MoveOp;
    var drops := DropNames(d, k);
    var n, a := 6 + 3 * |drops| - 2, MoveOps(drops, tx);
    RenamesAt(drops, tx, |drops| - 1);
    MovesFirst(d, KeepLast(k), tx);
    forall i | 0 <= i < n ensures MoveOp(PruneLog(d, KeepLast(k), tx)[i], drops, tx) { MoveOpsAt(drops, tx, i); }
  }

  lemma RenamesAt(drops: seq<string>, tx: string, i: nat)
    requires i < |drops|
    ensures |MoveOps(drops, tx)| == 6 + 3 * |drops| && MoveOps(drops, tx)[6 + 3 * i] == Retire(drops[i], tx)
  {
    hide RetireOps;
    RetireOpsAt(drops, tx, i);
    CreateLength(tx);
    assert MoveOps(drops, tx)[6 + 3 * i] == RetireOps(drops, tx)[3 * i];
  }

  lemma {:induction false} OnlyThisTransaction(d: Disk, ops: seq<Op>, tx: string)
    requires forall i :: 0 <= i < |ops| && ops[i].MakeTx? ==> ops[i].tx == tx
    ensures ApplyAll(d, ops).retired.Keys <= d.retired.Keys + {tx}
  {
    hide Apply;
    if ops != [] {
      OnlyThisTransaction(d, ops[..|ops| - 1], tx);
      OneOperation(ApplyAll(d, ops[..|ops| - 1]), ops[|ops| - 1], tx);
    }
  }

  lemma OneOperation(d: Disk, op: Op, tx: string)
    requires op.MakeTx? ==> op.tx == tx
    ensures Apply(d, op).retired.Keys <= d.retired.Keys + {tx}
  {
  }

  /** Every dropped snapshot was renamed by then. */
  lemma AllRenamed(d: Disk, k: int, tx: string)
    requires CanStart(d, KeepLast(k), tx) && DropNames(d, k) != []
    ensures DropNames(ApplyAll(d, UpToLastRename(d, k, tx)), k) == []
  {
    hide Ready, PruneLog, MoveOps, TxNameOk, DropNames, KeepNames, ApplyAll, Image, Filter, Retired, Durable;
    var drops, ops := DropNames(d, k), UpToLastRename(d, k, tx);
    LastRenameAt(d, k, tx);
    var e := Image(d, ops, All(|ops|));
    ImageAll(d, ops, All(|ops|));
    EverythingDurable(ops);
    StartKeeps(d, k, tx);
    ImageRemainder(d, k, tx, |ops|, All(|ops|));
    KeepUnchanged(d, e, k);
    FilterElements(drops, e.snapshots.Keys);
    ImageSnapshots(d, ops, All(|ops|));
    forall x | x in drops ensures x !in e.snapshots { RenamedBy(d, k, tx, x); }
    if DropNames(e, k) != [] {
      FirstIsIn(DropNames(e, k));
      assert false;
    }
  }

  lemma FirstIsIn(names: seq<string>)
    requires names != []
    ensures names[0] in names
  {
  }

  lemma RenamedBy(d: Disk, k: int, tx: string, x: string)
    requires CanStart(d, KeepLast(k), tx) && x in DropNames(d, k)
    ensures var ops := UpToLastRename(d, k, tx); Retired(ops, All(|ops|), x)
  {
    hide Ready, PruneLog, MoveOps, TxNameOk, DropNames;
    var drops, ops := DropNames(d, k), UpToLastRename(d, k, tx);
    LastRenameAt(d, k, tx);
    var i :| 0 <= i < |drops| && drops[i] == x;
    RenamesAt(drops, tx, i);
    MovesFirst(d, KeepLast(k), tx);
    assert ops[6 + 3 * i] == Retire(x, tx) && 6 + 3 * i in All(|ops|);
  }

  /** What the second prune sees lets it in. */
  lemma SecondStarts(d: Disk, k: int, tx: string, tx': string)
    requires CanStart(d, KeepLast(k), tx) && DropNames(d, k) != [] && TxNameOk(tx') && tx' != tx && tx' !in d.retired
    ensures var e := Effects(Restarted(d), Issues(UpToLastRename(d, k, tx)));
      PruneStarts(e, KeepLast(k), tx') && e.disk == ApplyAll(d, UpToLastRename(d, k, tx))
  {
    hide PruneLog, Tracked, Effects, ApplyAll, Image, Durable, TxNameOk, DropNames, Ready, Intact, UpTo;
    var ops := UpToLastRename(d, k, tx);
    LastRenameAt(d, k, tx);
    RestartedIsInOrder(d, KeepLast(k));
    NewIsNew(d, tx);
    NewIsNew(d, tx');
    LogInOrder(Restarted(d), KeepLast(k), tx, |ops|);
    Reading(Restarted(d), KeepLast(k), tx, |ops|);
    EverythingDurable(ops);
    ImageAll(d, ops, All(|ops|));
    RetryReady(d, k, tx, |ops|, All(|ops|));
    OnlyThisTransaction(d, ops, tx);
    var e := Effects(Restarted(d), Issues(ops));
    forall c ensures (c, tx') !in e.renamed {
      if (c, tx') in e.renamed { LiveRenamed(Restarted(d), ops, c, tx'); assert false; }
    }
  }

  lemma Reading(g: State, policy: Policy, tx: string, m: nat)
    requires m <= |PruneLog(g.disk, policy, tx)| && UpTo(g, policy, tx, m)
    ensures var ops := PruneLog(g.disk, policy, tx)[..m]; Effects(g, Issues(ops)).disk == ApplyAll(g.disk, ops)
  {
  }

  lemma NewIsNew(d: Disk, tx: string)
    requires tx !in d.retired
    ensures UnusedTx(Restarted(d), tx)
  {
  }

  /** Any keep-last prune that drops something, killed right after its last rename and run
      again: power lost during the second run can leave a listed snapshot damaged. */
  lemma KilledAfterLastRename(d: Disk, k: int, tx: string, tx': string)
    requires CanStart(d, KeepLast(k), tx) && DropNames(d, k) != [] && TxNameOk(tx') && tx' != tx && tx' !in d.retired
    ensures var acts := Issues(UpToLastRename(d, k, tx)); var e := Effects(Restarted(d), acts);
      PruneStarts(e, KeepLast(k), tx') && !Safe(Restarted(d), acts, Issues(PruneLog(e.disk, KeepLast(k), tx')))
  {
    hide PruneLog, Tracked, Effects, ApplyAll, TxNameOk, DropNames, Ready, Intact, Safe, AllIntact, InOrder,
      RenamePending;
    var ops, g := UpToLastRename(d, k, tx), Restarted(d);
    LastRenameAt(d, k, tx);
    RestartedIsInOrder(d, KeepLast(k));
    NewIsNew(d, tx);
    NothingHappened(g);
    SecondStarts(d, k, tx, tx');
    AllRenamed(d, k, tx);
    assert [] + Issues(ops) == Issues(ops);
    StoppedThenPruned(g, [], KeepLast(k), tx, |ops|, KeepLast(k), tx');
  }

  lemma NothingHappened(g: State)
    requires AllIntact(g, [])
    ensures Effects(g, []) == g
    ensures var none: seq<Act> := []; forall m: nat :: m <= |none| ==> AllIntact(g, none[..m])
  {
  }
}
