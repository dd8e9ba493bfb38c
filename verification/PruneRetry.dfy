/** Retrying an interrupted keep-last prune: whatever power losses interrupted it, the
    journal check accepts what is left and the prune ends in one and the same repository. */
module PruneRetry {
  import opened Wrappers
  import opened Content
  import opened SnapshotNames
  import opened Repository
  import opened RetentionPlan
  import opened Journal
  import opened PruneSpec
  import opened PruneSteps
  import opened PlanPredicts
  import opened PruneCrash
  import opened PruneImages
  import opened Sums
  import Listing

  /** Where a keep-last prune ends. */
  function Final(d: Disk, k: int): Disk {
    Disk(
      map n | n in d.snapshots && n in KeepNames(d, k) :: d.snapshots[n],
      map h | h in d.objects && h in RetainedHashes(d, k) :: d.objects[h],
      d.hasRetiredRoot || DropNames(d, k) != [],
      map[])
  }

  /** What a power loss left of a repository on which a keep-last prune was running. */
  ghost predicate Remainder(d: Disk, e: Disk, k: int) {
    && (forall n :: n in e.snapshots ==> n in d.snapshots && e.snapshots[n] == d.snapshots[n])
    && (forall n :: n in KeepNames(d, k) ==> n in e.snapshots)
    && (forall h :: h in e.objects ==> h in d.objects && e.objects[h] == d.objects[h])
    && (forall h :: h in d.objects && h in RetainedHashes(d, k) ==> h in e.objects)
  }

  // ----- what is kept does not change -----

  lemma {:induction false} FilterConcat(a: seq<string>, b: seq<string>, s: set<string>)
    ensures Filter(a + b, s) == Filter(a, s) + Filter(b, s)
  {
    if b == [] {
      assert a + b == a;
    } else {
      var m := |b| - 1;
      FilterConcat(a, b[..m], s);
      assert (a + b)[..|a + b| - 1] == a + b[..m];
    }
  }

  lemma {:induction false} FilterAll(a: seq<string>, s: set<string>)
    requires forall x :: x in a ==> x in s
    ensures Filter(a, s) == a
  {
    if a != [] { FilterAll(a[..|a| - 1], s); }
  }

  lemma {:induction false} FilterSum(sizes: map<string, nat>, names: seq<string>, s: set<string>)
    ensures SumBytes(sizes, Filter(names, s)) <= SumBytes(sizes, names)
  {
    if names != [] {
      var k := |names| - 1;
      FilterSum(sizes, names[..k], s);
      var f := Filter(names[..k], s);
      assert (f + [names[k]])[..|f|] == f;
      assert f + [] == f;
    }
  }

  lemma PlanSplits(d: Disk, k: nat)
    ensures SnapshotListing(d) == DropNames(d, k) + KeepNames(d, k)
    ensures |DropNames(d, k)| == if |SnapshotListing(d)| < k then 0 else |SnapshotListing(d)| - k
  {
    hide Listing.Of;
  }

  lemma SplitIsPlan(e: Disk, k: nat, drop: seq<string>, keep: seq<string>)
    requires SnapshotListing(e) == drop + keep && |drop| == if |drop + keep| < k then 0 else |drop + keep| - k
    ensures DropNames(e, k) == drop && KeepNames(e, k) == keep
  {
    hide Listing.Of;
  }

  lemma {:induction false} FilterShorter(names: seq<string>, s: set<string>)
    ensures |Filter(names, s)| <= |names|
  {
    if names != [] { FilterShorter(names[..|names| - 1], s); }
  }

  lemma KeepUnchanged(d: Disk, e: Disk, k: int)
    requires k >= 1 && e.snapshots.Keys <= d.snapshots.Keys
    requires forall n :: n in KeepNames(d, k) ==> n in e.snapshots
    ensures KeepNames(e, k) == KeepNames(d, k)
    ensures DropNames(e, k) == Filter(DropNames(d, k), e.snapshots.Keys)
  {
    hide Listing.Of, Filter, KeepNames, DropNames;
    FilterIsListing(d.snapshots.Keys, e.snapshots.Keys);
    assert d.snapshots.Keys * e.snapshots.Keys == e.snapshots.Keys;
    var drop, keep := DropNames(d, k), KeepNames(d, k);
    PlanSplits(d, k);
    FilterConcat(drop, keep, e.snapshots.Keys);
    FilterAll(keep, e.snapshots.Keys);
    FilterShorter(drop, e.snapshots.Keys);
    SplitIsPlan(e, k, Filter(drop, e.snapshots.Keys), keep);
  }

  lemma RetainedUnchanged(d: Disk, e: Disk, k: int)
    requires k >= 1 && Remainder(d, e, k)
    ensures RetainedHashes(e, k) == RetainedHashes(d, k)
  {
    hide Listing.Of, Referenced;
    KeepUnchanged(d, e, k);
    KeptPresent(d, k);
    SameRows(d, e, Elements(KeepNames(d, k)));
  }

  lemma KeptPresent(d: Disk, k: int)
    ensures forall n :: n in KeepNames(d, k) ==> n in d.snapshots
    ensures forall n :: n in DropNames(d, k) ==> n in d.snapshots
  {
    forall n | n in KeepNames(d, k) ensures n in d.snapshots { assert n in SnapshotListing(d); }
    forall n | n in DropNames(d, k) ensures n in d.snapshots { assert n in SnapshotListing(d); }
  }

  // ----- the plan still succeeds -----

  lemma SizesSame(d: Disk, e: Disk, k: int)
    requires Remainder(d, e, k)
    ensures forall n :: n in e.snapshots ==> SizeOf(SnapshotSizes(e), n) == SizeOf(SnapshotSizes(d), n)
    ensures forall h :: h in e.objects ==> SizeOf(ObjectSizes(e.objects), h) == SizeOf(ObjectSizes(d.objects), h)
  {
    hide FilesSize, KeepNames, RetainedHashes;
  }

  lemma DropBytesShrink(d: Disk, e: Disk, k: int)
    requires k >= 1 && Remainder(d, e, k)
    ensures DropSnapshotBytes(e, k) <= DropSnapshotBytes(d, k)
  {
    hide SnapshotSizes, KeepNames, DropNames, RetainedHashes, SizeOf, SumBytes;
    KeepUnchanged(d, e, k);
    SizesSame(d, e, k);
    FilterElements(DropNames(d, k), e.snapshots.Keys);
    SumAgrees(SnapshotSizes(e), SnapshotSizes(d), DropNames(e, k));
    FilterSum(SnapshotSizes(d), DropNames(d, k), e.snapshots.Keys);
  }

  lemma ObjectBytesShrink(d: Disk, e: Disk, k: int, a: set<string>, b: set<string>)
    requires Remainder(d, e, k) && a <= e.objects.Keys && a <= b
    ensures BytesOf(ObjectSizes(e.objects), a) <= BytesOf(ObjectSizes(d.objects), b)
  {
    hide ObjectSizes, KeepNames, RetainedHashes, SizeOf, SumBytes;
    SizesSame(d, e, k);
    SumAgrees(ObjectSizes(e.objects), ObjectSizes(d.objects), Listing.Of(a));
    BytesMonotone(ObjectSizes(d.objects), a, b);
  }

  lemma TotalsMeaning(d: Disk, k: int)
    ensures TotalsOk(d, k, true) <==>
      && BytesOf(ObjectSizes(d.objects), d.objects.Keys) <= MAX_INT64
      && DropSnapshotBytes(d, k) + BytesOf(ObjectSizes(d.objects), d.objects.Keys - RetainedHashes(d, k)) <= MAX_INT64
  {
    hide ObjectSizes, BytesOf, Referenced, DropSnapshotBytes, RetainedHashes;
    RetainedReferenced(d, k);
    DropFigures(ObjectSizes(d.objects), d.objects.Keys, Referenced(d, d.snapshots.Keys), RetainedHashes(d, k));
  }

  lemma TotalsStillOk(d: Disk, e: Disk, k: int)
    requires k >= 1 && Remainder(d, e, k) && TotalsOk(d, k, true)
    ensures TotalsOk(e, k, true)
  {
    hide ObjectSizes, BytesOf, KeepNames, TotalsOk, DropSnapshotBytes, RetainedHashes;
    RetainedUnchanged(d, e, k);
    TotalsMeaning(d, k);
    TotalsMeaning(e, k);
    assert e.objects.Keys <= d.objects.Keys;
    ObjectBytesShrink(d, e, k, e.objects.Keys - RetainedHashes(e, k), d.objects.Keys - RetainedHashes(d, k));
    ObjectBytesShrink(d, e, k, e.objects.Keys, d.objects.Keys);
    DropBytesShrink(d, e, k);
  }

  lemma PlanStillOk(d: Disk, e: Disk, k: int)
    requires PlanOk(d, k, true) && Remainder(d, e, k) && Recoverable(e)
    ensures PlanOk(e, k, true)
  {
    hide TotalsOk, KeepNames, RetainedHashes, RowsOf, Committed, Canonical, ShaValid;
    TotalsStillOk(d, e, k);
    forall n | n in e.snapshots ensures SnapshotOk(e, n) {
      assert SnapshotOk(d, n);
    }
    forall h | h in e.objects ensures ObjectOk(e, h, true) {
      assert ObjectOk(d, h, true);
    }
    forall n | n in e.snapshots ensures RowsOk(e, n) {
      assert SnapshotRecoverable(e, n);
    }
  }

  // ----- what an image keeps -----

  lemma RetiredDropped(d: Disk, policy: Policy, tx: string, n: nat, s: set<nat>, name: string)
    requires n <= |PruneLog(d, policy, tx)| && Retired(PruneLog(d, policy, tx)[..n], s, name)
    ensures name in Drops(d, policy)
  {
    hide PruneLog, Drops, MoveOps, PhaseB;
    var ops := PruneLog(d, policy, tx)[..n];
    var i :| i in s && i < |ops| && ops[i].Retire? && ops[i].name == name;
    MoveHasNone(d, policy, tx, i);
  }

  lemma ProtectedRetained(d: Disk, k: int, tx: string)
    requires CanStart(d, KeepLast(k), tx)
    ensures Protected(Moved(d, KeepLast(k), tx)) == RetainedHashes(d, k)
  {
    hide Ready, Referenced, Protected, Moved, KeepNames, DropNames;
    ProtectedIs(d, KeepLast(k), tx);
    KeptIs(d, k);
  }

  lemma ImageRemainder(d: Disk, k: int, tx: string, n: nat, s: set<nat>)
    requires CanStart(d, KeepLast(k), tx)
    requires n <= |PruneLog(d, KeepLast(k), tx)| && Durable(PruneLog(d, KeepLast(k), tx)[..n], s)
    ensures Remainder(d, Image(d, PruneLog(d, KeepLast(k), tx)[..n], s), k)
  {
    hide Ready, PruneLog, Durable, Image, Retired, Unlinked, KeepNames, DropNames, RetainedHashes, Moved, Protected;
    var policy := KeepLast(k);
    var ops := PruneLog(d, policy, tx)[..n];
    ImageSnapshots(d, ops, s);
    ImageObjects(d, ops, s);
    KeptPresent(d, k);
    KeptIs(d, k);
    ProtectedRetained(d, k, tx);
    forall m | m in KeepNames(d, k) ensures !Retired(ops, s, m) {
      assert m in Elements(KeepNames(d, k));
      if Retired(ops, s, m) { RetiredDropped(d, policy, tx, n, s, m); }
    }
    forall h | h in RetainedHashes(d, k) ensures !Unlinked(ops, s, h) {
      if Unlinked(ops, s, h) { var i := UnlinkedUnprotected(d, policy, tx, n, s, h); }
    }
  }

  /** Power loss during a keep-last prune: the same prune may start again. */
  lemma RetryReady(d: Disk, k: int, tx: string, n: nat, s: set<nat>)
    requires CanStart(d, KeepLast(k), tx)
    requires n <= |PruneLog(d, KeepLast(k), tx)| && Durable(PruneLog(d, KeepLast(k), tx)[..n], s)
    ensures Ready(Image(d, PruneLog(d, KeepLast(k), tx)[..n], s), KeepLast(k))
  {
    hide PruneLog, Durable, Image, KeepNames, DropNames, RetainedHashes, PlanOk, PendingOk, TxNameOk;
    var log := PruneLog(d, KeepLast(k), tx);
    var e := Image(d, log[..n], s);
    ImagePending(d, KeepLast(k), tx, n, s, n);
    ImageRemainder(d, k, tx, n, s);
    CrashSafe(d, KeepLast(k), tx, n, s);
    KeepPositive(d, k);
    PlanStillOk(d, e, k);
    KeepUnchanged(d, e, k);
    forall m | m in KeepNames(e, k) ensures ArchiveOk(e, m) {
      assert ArchiveOk(d, m);
    }
  }

  lemma KeepPositive(d: Disk, k: int)
    requires PlanOk(d, k, true)
    ensures k >= 1
  {
  }

  // ----- it ends in the same place -----

  lemma {:induction false} RootMade(d: Disk, ops: seq<Op>, s: set<nat>, i: nat)
    requires i in s && i < |ops| && ops[i] == MakeRoot
    ensures Image(d, ops, s).hasRetiredRoot
  {
    var k := |ops| - 1;
    if i < k { RootMade(d, ops[..k], s, i); }
  }

  lemma {:induction false} RootStays(d: Disk, ops: seq<Op>, s: set<nat>)
    requires forall i :: 0 <= i < |ops| ==> ops[i] != MakeRoot
    ensures Image(d, ops, s).hasRetiredRoot == d.hasRetiredRoot
  {
    if ops != [] { RootStays(d, ops[..|ops| - 1], s); }
  }

  lemma NoMakeRoot(d: Disk, policy: Policy, tx: string)
    requires Drops(d, policy) == []
    ensures forall i :: 0 <= i < |PruneLog(d, policy, tx)| ==> PruneLog(d, policy, tx)[i] != MakeRoot
  {
    hide PruneLog, Drops, Moved, Protected, PhaseB;
    var log := PruneLog(d, policy, tx);
    forall i | 0 <= i < |log| ensures log[i] != MakeRoot {
      LogShape(d, policy, tx, i);
    }
  }

  /** Once a snapshot has moved, the retirement directory is durable. */
  lemma RootDurable(d: Disk, policy: Policy, tx: string, n: nat, s: set<nat>, name: string)
    requires n <= |PruneLog(d, policy, tx)| && Durable(PruneLog(d, policy, tx)[..n], s)
    requires Retired(PruneLog(d, policy, tx)[..n], s, name)
    ensures Image(d, PruneLog(d, policy, tx)[..n], s).hasRetiredRoot
  {
    hide PruneLog, Drops, MoveOps, PhaseB, Moved, Protected, Image;
    var ops, a := PruneLog(d, policy, tx)[..n], MoveOps(Drops(d, policy), tx);
    var i :| i in s && i < |ops| && ops[i].Retire? && ops[i].name == name;
    MoveHasNone(d, policy, tx, i);
    LogShape(d, policy, tx, i);
    MoveOpsAt(Drops(d, policy), tx, i);
    MarkerOp(Drops(d, policy), tx);
    LogShape(d, policy, tx, 0);
    LogShape(d, policy, tx, 1);
    assert ops[0] == a[..6][0] && ops[1] == a[..6][1];
    assert 0 in s;
    RootMade(d, ops, s, 0);
  }

  lemma SameRoot(d: Disk, k: int, tx: string, n: nat, s: set<nat>)
    requires CanStart(d, KeepLast(k), tx)
    requires n <= |PruneLog(d, KeepLast(k), tx)| && Durable(PruneLog(d, KeepLast(k), tx)[..n], s)
    ensures var e := Image(d, PruneLog(d, KeepLast(k), tx)[..n], s);
      (e.hasRetiredRoot || DropNames(e, k) != []) == (d.hasRetiredRoot || DropNames(d, k) != [])
  {
    hide Ready, PruneLog, Durable, Image, Retired, KeepNames, DropNames, RetainedHashes, Filter, TxNameOk;
    var policy, ops := KeepLast(k), PruneLog(d, KeepLast(k), tx)[..n];
    var e := Image(d, ops, s);
    StartKeeps(d, k, tx);
    ImageRemainder(d, k, tx, n, s);
    KeepUnchanged(d, e, k);
    var drop := DropNames(d, k);
    FilterElements(drop, e.snapshots.Keys);
    if drop == [] {
      NoMakeRoot(d, policy, tx);
      RootStays(d, ops, s);
      FilterAll(drop, e.snapshots.Keys);
    } else if DropNames(e, k) == [] {
      KeptPresent(d, k);
      ImageSnapshots(d, ops, s);
      assert drop[0] in drop && drop[0] !in Filter(drop, e.snapshots.Keys);
      RootDurable(d, policy, tx, n, s, drop[0]);
    }
  }

  lemma StartKeeps(d: Disk, k: int, tx: string)
    requires CanStart(d, KeepLast(k), tx)
    ensures k >= 1
  {
  }

  /** The retry heads for the repository the interrupted prune was heading for. */
  lemma SameFinal(d: Disk, k: int, tx: string, n: nat, s: set<nat>)
    requires CanStart(d, KeepLast(k), tx)
    requires n <= |PruneLog(d, KeepLast(k), tx)| && Durable(PruneLog(d, KeepLast(k), tx)[..n], s)
    ensures Final(Image(d, PruneLog(d, KeepLast(k), tx)[..n], s), k) == Final(d, k)
  {
    hide Ready, PruneLog, Durable, Image, KeepNames, DropNames, RetainedHashes, TxNameOk;
    var e := Image(d, PruneLog(d, KeepLast(k), tx)[..n], s);
    StartKeeps(d, k, tx);
    ImageRemainder(d, k, tx, n, s);
    RetainedUnchanged(d, e, k);
    KeepUnchanged(d, e, k);
    SameRoot(d, k, tx, n, s);
  }

  // ----- where a prune that is not interrupted ends -----

  lemma LogEnd(d: Disk, ops: seq<Op>)
    ensures Progress(d, [], ops, |ops|, ApplyAll(d, ops), ops)
  {
    assert ops[..|ops|] == ops;
  }

  lemma {:induction false} SweepEffect(d: Disk, protected: set<string>, buckets: seq<string>, i: nat)
    requires i <= |buckets| && buckets == Listing.Of(Buckets(d.objects.Keys))
    ensures ApplyAll(d, SweepOps(d.objects.Keys, protected, buckets[..i])) ==
      d.(objects := d.objects - Gone(d, protected, buckets[..i]))
  {
    hide Gone, Listing.Of, BucketOps, InBucket, Apply, ApplyAll, Buckets;
    if i == 0 {
      SweepStart(d, [], protected, buckets);
      assert ApplyAll(d, []) == d by { ApplyNothing(d); }
    } else {
      var j := i - 1;
      SweepEffect(d, protected, buckets, j);
      SameBucket(d, protected, buckets, j);
      assert buckets[..i][..j] == buckets[..j];
      var d1 := d.(objects := d.objects - Gone(d, protected, buckets[..j]));
      var ops := BucketOps(d1.objects.Keys, protected, buckets[j]);
      LogEnd(d1, ops);
      BucketDone(d1, [], buckets[j], protected, ApplyAll(d1, ops), ops);
      BucketOpsSame(d.objects.Keys, d1.objects.Keys, protected, buckets[j]);
      ApplyAllConcat(d, SweepOps(d.objects.Keys, protected, buckets[..j]), ops);
    }
  }

  lemma BucketOpsSame(a: set<string>, b: set<string>, protected: set<string>, bucket: string)
    requires InBucket(a, bucket) == InBucket(b, bucket)
    ensures BucketOps(a, protected, bucket) == BucketOps(b, protected, bucket)
  {
  }

  lemma {:induction false} ChildrenEffect(d: Disk, tx: string, i: nat)
    requires HasTx(d, tx) && ChildrenOk(d.retired[tx].children) && i <= |d.retired[tx].children.Keys|
    ensures var t, names := d.retired[tx], Listing.Of(d.retired[tx].children.Keys);
      ApplyAll(d, ChildrenOps(tx, t.children, names[..i])) == WithoutChildren(d, tx, names[..i])
  {
    hide Listing.Of, ChildOps, Apply, ApplyAll, WithoutChildren, WithoutChild, ChildrenOk;
    var t, names := d.retired[tx], Listing.Of(d.retired[tx].children.Keys);
    if i == 0 {
      TxStart(d, [], tx);
      ApplyNothing(d);
    } else {
      var j := i - 1;
      ChildrenEffect(d, tx, j);
      assert names[..i][..j] == names[..j] && names[..i] == names[..j] + [names[j]];
      TxChild(d, tx, j);
      var d1 := WithoutChildren(d, tx, names[..j]);
      TxAdvanceDisk(d, tx, names[..j], names[j]);
      ChildEnd(d1, tx, names[j]);
      ApplyAllConcat(d, ChildrenOps(tx, t.children, names[..j]), ChildOps(tx, names[j], t.children[names[j]]));
    }
  }

  lemma TxEffect(d: Disk, tx: string)
    requires HasTx(d, tx) && ChildrenOk(d.retired[tx].children)
    ensures ApplyAll(d, FinishOps(tx, d.retired[tx])) == d.(retired := d.retired - {tx})
  {
    hide Listing.Of, ChildrenOps, Apply, ApplyAll, WithoutChildren, ChildrenOk;
    var t, names := d.retired[tx], Listing.Of(d.retired[tx].children.Keys);
    ChildrenEffect(d, tx, |names|);
    assert names[..|names|] == names;
    TxVanishes(d, tx, names);
    var a := ChildrenOps(tx, t.children, names);
    var e := ApplyAll(d, a);
    var tail := [Sync(TxDir(tx)), DropTx(tx), Sync(RetiredRoot)];
    if t.marker.Some? {
      ApplyAllOne(d, a, DropMarker(tx));
      ApplyAllConcat(d, a + [DropMarker(tx)], tail);
      ApplyAllThree(Apply(e, DropMarker(tx)), tail[0], tail[1], tail[2]);
    } else {
      ApplyAllConcat(d, a, tail);
      ApplyAllThree(e, tail[0], tail[1], tail[2]);
      assert a + [] + tail == a + tail;
    }
  }

  lemma {:induction false} FinishEffect(d: Disk, txs: seq<string>)
    requires NoRepeats(txs) && forall i :: 0 <= i < |txs| ==> HasTx(d, txs[i]) && ChildrenOk(d.retired[txs[i]].children)
    ensures ApplyAll(d, FinishAllOps(d.retired, txs)) == d.(retired := d.retired - Elements(txs))
  {
    hide FinishOps, Apply, ApplyAll, ChildrenOk;
    if txs == [] {
      ApplyNothing(d);
      assert d.retired - Elements([]) == d.retired;
    } else {
      var k := |txs| - 1;
      FinishEffect(d, txs[..k]);
      var d1 := d.(retired := d.retired - Elements(txs[..k]));
      assert Elements(txs) == Elements(txs[..k]) + {txs[k]};
      assert txs[k] !in Elements(txs[..k]);
      MapMinus(d.retired, Elements(txs[..k]), {txs[k]});
      TxEffect(d1, txs[k]);
      ApplyAllConcat(d, FinishAllOps(d.retired, txs[..k]), FinishOps(txs[k], d.retired[txs[k]]));
    }
  }

  /** Where a prune of any policy ends: without the dropped snapshots, with the objects that the
      others mention, and with no transaction. */
  function EndOf(d: Disk, policy: Policy): Disk {
    Disk(
      d.snapshots - Elements(Drops(d, policy)),
      map h | h in d.objects && h in Referenced(d, d.snapshots.Keys - Elements(Drops(d, policy))) :: d.objects[h],
      d.hasRetiredRoot || Drops(d, policy) != [],
      map[])
  }

  lemma PruneEnds(d: Disk, policy: Policy, tx: string)
    requires Ready(d, policy) && (Drops(d, policy) == [] || tx !in d.retired)
    ensures ApplyAll(d, PruneLog(d, policy, tx)) == EndOf(d, policy)
  {
    hide Ready, MoveOps, SweepOps, FinishAllOps, ApplyAll, Apply, Listing.Of, Buckets, Gone, ChildrenOk, HasTx,
      Protected, Referenced, Drops, BytesOf, ObjectSizes, TxList, Moved, Canonical, IndexOf, EndOf;
    var protected, buckets := Protected(Moved(d, policy, tx)), Listing.Of(Buckets(d.objects.Keys));
    AfterMove(d, policy, tx);
    ProtectedIs(d, policy, tx);
    var d1 := Moved(d, policy, tx);
    LogPhases(d, policy, tx);
    var a, b, c := MoveOps(Drops(d, policy), tx), PhaseB(d, policy, tx), PhaseC(d, policy, tx);
    ApplyAllConcat(d, a, b);
    SweepEffect(d1, protected, buckets, |buckets|);
    assert buckets[..|buckets|] == buckets;
    GoneAll(d1, protected);
    var d2 := d1.(objects := d1.objects - (d1.objects.Keys - protected));
    ApplyAllConcat(d, a + b, c);
    SameRetired(d1, d2, TxList(d, policy, tx));
    FinishEffect(d2, TxList(d, policy, tx));
    Leftovers(d, policy, tx);
  }

  lemma Leftovers(d: Disk, policy: Policy, tx: string)
    requires Ready(d, policy) && (Drops(d, policy) == [] || tx !in d.retired)
    ensures var d1, txs := Moved(d, policy, tx), TxList(d, policy, tx);
      var kept := Referenced(d, d.snapshots.Keys - Elements(Drops(d, policy)));
      Disk(d1.snapshots, d1.objects - (d1.objects.Keys - kept), d1.hasRetiredRoot, d1.retired - Elements(txs)) ==
        EndOf(d, policy)
  {
    hide Ready, MoveOps, ApplyAll, Referenced, Drops, Listing.Of, TxList;
    DropsPresent(d, policy);
    MoveEffect(d, Drops(d, policy), tx);
    MovedRetired(d, policy, tx);
    NothingDropped(d.snapshots);
    KeptObjects(d.objects, Referenced(d, d.snapshots.Keys - Elements(Drops(d, policy))));
  }

  lemma NothingDropped(snapshots: map<string, SnapshotNode>)
    ensures snapshots - Elements([]) == snapshots
  {
  }

  lemma KeptObjects(objects: map<string, ObjectNode>, kept: set<string>)
    ensures objects - (objects.Keys - kept) == map h | h in objects && h in kept :: objects[h]
  {
  }

  lemma MovedRetired(d: Disk, policy: Policy, tx: string)
    ensures MovedDisk(d, Drops(d, policy), tx).retired - Elements(TxList(d, policy, tx)) == map[]
  {
    hide Drops, Listing.Of;
    var txs := TxList(d, policy, tx);
    forall t | t in MovedDisk(d, Drops(d, policy), tx).retired ensures t in txs {
      if t in d.retired { assert t in Listing.Of(d.retired.Keys); }
    }
  }

  /** A prune that runs to its end arrives at the final repository. */
  lemma PruneArrives(d: Disk, k: int, tx: string)
    requires CanStart(d, KeepLast(k), tx)
    ensures ApplyAll(d, PruneLog(d, KeepLast(k), tx)) == Final(d, k)
  {
    hide Ready, PruneLog, ApplyAll, Referenced, KeepNames, DropNames;
    PruneEnds(d, KeepLast(k), tx);
    KeptIs(d, k);
    MovedSnapshots(d, k);
  }

  lemma MovedSnapshots(d: Disk, k: int)
    requires d.snapshots.Keys - Elements(DropNames(d, k)) == Elements(KeepNames(d, k))
    ensures d.snapshots - Elements(DropNames(d, k)) == Final(d, k).snapshots
  {
    hide KeepNames, DropNames, RetainedHashes;
    var m := d.snapshots - Elements(DropNames(d, k));
    assert forall n :: n in m <==> n in d.snapshots && n in Elements(KeepNames(d, k));
  }

  // ----- the counters of a retry cannot overflow -----

  /** The file bytes under `snapshots/` and under the retired transactions. */
  function Stored(d: Disk): nat {
    BytesOf(TxSizes(d.retired), d.retired.Keys) + BytesOf(SnapshotSizes(d), d.snapshots.Keys)
  }

  /** The file bytes that a keep-last prune has still to delete. */
  function Load(d: Disk, k: int): nat {
    BytesOf(TxSizes(d.retired), d.retired.Keys) + DropSnapshotBytes(d, k)
  }

  function ChildBytes(children: map<string, SnapshotNode>): nat {
    BytesOf(ChildSizes(children), children.Keys)
  }

  function NodeBytes(node: SnapshotNode): nat {
    if node.SnapshotDir? then FilesSize(node.files) else 0
  }

  lemma ChildPut(children: map<string, SnapshotNode>, name: string, node: SnapshotNode)
    ensures ChildBytes(children[name := node]) <= ChildBytes(children) + NodeBytes(node)
    ensures name in children ==>
      ChildBytes(children[name := node]) == ChildBytes(children) - NodeBytes(children[name]) + NodeBytes(node)
    ensures ChildBytes(children - {name}) <= ChildBytes(children)
  {
    hide FilesSize, SumBytes, BytesOf;
    var c' := children[name := node];
    assert c'.Keys == children.Keys + {name};
    BytesReplaced(ChildSizes(children), ChildSizes(c'), children.Keys, name);
    assert (children - {name}).Keys == children.Keys - {name};
    BytesReplaced(ChildSizes(children), ChildSizes(children - {name}), children.Keys, name);
  }

  lemma FileGone(files: map<string, FileNode>, file: string)
    ensures FilesSize(files - {file}) <= FilesSize(files)
  {
    hide SumBytes;
    assert (files - {file}).Keys == files.Keys - {file};
    BytesReplaced(FileSizes(files), FileSizes(files - {file}), files.Keys, file);
  }

  function TxBytes(node: Transaction): nat {
    if node.Transaction? then ChildBytes(node.children) else 0
  }

  lemma TxPut(retired: map<string, Transaction>, tx: string, node: Transaction)
    ensures BytesOf(TxSizes(retired[tx := node]), retired[tx := node].Keys) ==
      BytesOf(TxSizes(retired), retired.Keys) - (if tx in retired then TxBytes(retired[tx]) else 0) + TxBytes(node)
    ensures BytesOf(TxSizes(retired - {tx}), (retired - {tx}).Keys) <= BytesOf(TxSizes(retired), retired.Keys)
  {
    hide SumBytes, ChildSizes, TxSizes, BytesOf, TxBytes, SizeOf;
    var r' := retired[tx := node];
    assert r'.Keys == retired.Keys + {tx} && (retired - {tx}).Keys == retired.Keys - {tx};
    TxSizesAre(retired);
    TxSizesAre(r');
    TxSizesAre(retired - {tx});
    BytesReplaced(TxSizes(retired), TxSizes(r'), retired.Keys, tx);
    BytesReplaced(TxSizes(retired), TxSizes(retired - {tx}), retired.Keys, tx);
  }

  lemma TxSizesAre(retired: map<string, Transaction>)
    ensures forall t :: t in retired ==> SizeOf(TxSizes(retired), t) == TxBytes(retired[t])
  {
    hide SumBytes, ChildSizes, Listing.Of;
  }

  lemma SnapshotGone(d: Disk, e: Disk, name: string)
    requires name in d.snapshots && e.snapshots == d.snapshots - {name}
    ensures BytesOf(SnapshotSizes(e), e.snapshots.Keys) ==
      BytesOf(SnapshotSizes(d), d.snapshots.Keys) - NodeBytes(d.snapshots[name])
  {
    hide FilesSize, SumBytes, BytesOf;
    assert e.snapshots.Keys == d.snapshots.Keys - {name};
    BytesReplaced(SnapshotSizes(d), SnapshotSizes(e), d.snapshots.Keys, name);
  }

  lemma SameSnapshotSizes(d: Disk, e: Disk)
    requires e.snapshots == d.snapshots
    ensures BytesOf(SnapshotSizes(e), e.snapshots.Keys) == BytesOf(SnapshotSizes(d), d.snapshots.Keys)
  {
    hide FilesSize, BytesOf;
  }

  /** No operation of a prune adds stored bytes: a move keeps them, the rest deletes. */
  lemma StoredShrinks(d: Disk, op: Op)
    ensures Stored(Apply(d, op)) <= Stored(d)
  {
    hide BytesOf, TxSizes, SnapshotSizes, ChildBytes, FilesSize;
    var e := Apply(d, op);
    match op {
      case Retire(name, tx) =>
        if name in d.snapshots {
          SnapshotGone(d, e, name);
          if HasTx(d, tx) {
            var c := d.retired[tx].children;
            ChildPut(c, name, d.snapshots[name]);
            TxPut(d.retired, tx, d.retired[tx].(children := c[name := d.snapshots[name]]));
          }
        }
      case DropFile(tx, name, file) =>
        SameSnapshotSizes(d, e);
        if HasTx(d, tx) && name in d.retired[tx].children && d.retired[tx].children[name].SnapshotDir? {
          var c := d.retired[tx].children;
          var node := SnapshotDir(c[name].files - {file});
          FileGone(c[name].files, file);
          ChildPut(c, name, node);
          TxPut(d.retired, tx, d.retired[tx].(children := c[name := node]));
        }
      case DropChild(tx, name) =>
        SameSnapshotSizes(d, e);
        if HasTx(d, tx) {
          var c := d.retired[tx].children;
          ChildPut(c, name, NotSnapshotDir);
          TxPut(d.retired, tx, d.retired[tx].(children := c - {name}));
        }
      case _ =>
        SameSnapshotSizes(d, e);
        OtherShrinks(d, op);
    }
  }

  lemma OtherShrinks(d: Disk, op: Op)
    requires !op.Retire? && !op.DropFile? && !op.DropChild?
    ensures BytesOf(TxSizes(Apply(d, op).retired), Apply(d, op).retired.Keys) <=
      BytesOf(TxSizes(d.retired), d.retired.Keys)
  {
    hide BytesOf, TxSizes, SnapshotSizes, ChildBytes, FilesSize;
    if op.MakeTx? && op.tx !in d.retired {
      assert ChildBytes(map[]) == 0 by { NoChildren(); }
      TxPut(d.retired, op.tx, Transaction(None, map[]));
    } else if op.PutMarker? && HasTx(d, op.tx) {
      TxPut(d.retired, op.tx, d.retired[op.tx].(marker := Some(RegularFile(Lines(MARKER)))));
    } else if op.DropMarker? && HasTx(d, op.tx) {
      TxPut(d.retired, op.tx, d.retired[op.tx].(marker := None));
    } else if op.DropTx? {
      TxPut(d.retired, op.tx, NotTransactionDir);
    }
  }

  lemma NoChildren()
    ensures ChildBytes(map[]) == 0
  {
  }

  lemma {:induction false} ImageShrinks(d: Disk, ops: seq<Op>, s: set<nat>)
    ensures Stored(Image(d, ops, s)) <= Stored(d)
  {
    hide Stored, Apply;
    if ops != [] {
      var k := |ops| - 1;
      ImageShrinks(d, ops[..k], s);
      StoredShrinks(Image(d, ops[..k], s), ops[k]);
    }
  }

  lemma StoredSplits(d: Disk, k: int)
    ensures Stored(d) == Load(d, k) + SumBytes(SnapshotSizes(d), KeepNames(d, k))
  {
    hide SnapshotSizes, SumBytes, Listing.Of, TxSizes, KeepNames, DropNames;
    KeptIs(d, k);
    KeptPresent(d, k);
    ListsAscend(d, k);
    AscendingListing(DropNames(d, k));
    AscendingListing(KeepNames(d, k));
    var a, b := Elements(DropNames(d, k)), Elements(KeepNames(d, k));
    assert a + b == d.snapshots.Keys;
    BytesSplit(SnapshotSizes(d), a, b);
  }

  lemma ListsAscend(d: Disk, k: int)
    ensures Listing.Ascending(DropNames(d, k)) && Listing.Ascending(KeepNames(d, k))
  {
    Listing.OfAscending(d.snapshots.Keys);
  }

  lemma LoadShrinks(d: Disk, k: int, tx: string, n: nat, s: set<nat>)
    requires CanStart(d, KeepLast(k), tx)
    requires n <= |PruneLog(d, KeepLast(k), tx)| && Durable(PruneLog(d, KeepLast(k), tx)[..n], s)
    ensures Load(Image(d, PruneLog(d, KeepLast(k), tx)[..n], s), k) <= Load(d, k)
  {
    hide Ready, PruneLog, Durable, Image, KeepNames, DropNames, RetainedHashes, TxNameOk, Stored, Load, SnapshotSizes,
      SizeOf;
    var e := Image(d, PruneLog(d, KeepLast(k), tx)[..n], s);
    StartKeeps(d, k, tx);
    ImageRemainder(d, k, tx, n, s);
    KeepUnchanged(d, e, k);
    ImageShrinks(d, PruneLog(d, KeepLast(k), tx)[..n], s);
    StoredSplits(d, k);
    StoredSplits(e, k);
    SizesSame(d, e, k);
    SumAgrees(SnapshotSizes(e), SnapshotSizes(d), KeepNames(d, k));
  }

  /** The clean-up of a prune deletes exactly the load. */
  lemma FinishBytesLoad(d: Disk, k: int, tx: string)
    requires CanStart(d, KeepLast(k), tx)
    ensures FinishBytes(d, KeepLast(k), tx) == Load(d, k)
  {
    hide Ready, MoveOps, ApplyAll, FilesSize, Listing.Of, SumBytes, ChildSizes, SnapshotSizes, TxSizes, DropNames;
    var drops, earlier := DropNames(d, k), Listing.Of(d.retired.Keys);
    DropsPresent(d, KeepLast(k));
    MoveEffect(d, drops, tx);
    var e := Moved(d, KeepLast(k), tx);
    OldSizes(d, drops, tx);
    SumAgrees(TxSizes(e.retired), TxSizes(d.retired), earlier);
    if drops == [] {
      assert TxList(d, KeepLast(k), tx) == earlier;
      SumNothing(SnapshotSizes(d));
    } else {
      SumBytesAppend(TxSizes(e.retired), earlier, tx);
      ListsAscend(d, k);
      AscendingListing(drops);
      NewSize(d, drops, tx);
      ChosenSizes(d, drops);
      SumAgrees(ChildSizes(Chosen(d.snapshots, drops)), SnapshotSizes(d), drops);
    }
  }

  lemma OldSizes(d: Disk, drops: seq<string>, tx: string)
    requires tx !in d.retired
    ensures forall t :: t in Listing.Of(d.retired.Keys) ==>
      SizeOf(TxSizes(MovedDisk(d, drops, tx).retired), t) == SizeOf(TxSizes(d.retired), t)
  {
    hide ChildSizes, SumBytes;
  }

  lemma NewSize(d: Disk, drops: seq<string>, tx: string)
    requires drops != [] && forall n :: n in drops ==> n in d.snapshots
    requires Listing.Of(Elements(drops)) == drops
    ensures SizeOf(TxSizes(MovedDisk(d, drops, tx).retired), tx) ==
      SumBytes(ChildSizes(Chosen(d.snapshots, drops)), drops)
  {
    hide ChildSizes, SumBytes, Listing.Of;
    assert Chosen(d.snapshots, drops).Keys == Elements(drops);
  }

  // ----- any number of interruptions -----

  /** One interrupted attempt: its transaction name, how many operations it had issued, and
      which of them were durable when the power failed. */
  datatype Crash = Crash(tx: string, issued: nat, durable: set<nat>)

  ghost predicate Interrupts(d: Disk, k: int, c: Crash) {
    && CanStart(d, KeepLast(k), c.tx)
    && c.issued <= |PruneLog(d, KeepLast(k), c.tx)|
    && Durable(PruneLog(d, KeepLast(k), c.tx)[..c.issued], c.durable)
  }

  function AfterCrash(d: Disk, k: int, c: Crash): Disk {
    if c.issued > |PruneLog(d, KeepLast(k), c.tx)| then d
    else Image(d, PruneLog(d, KeepLast(k), c.tx)[..c.issued], c.durable)
  }

  function AfterCrashes(d: Disk, k: int, history: seq<Crash>): Disk {
    if history == [] then d
    else AfterCrash(AfterCrashes(d, k, history[..|history| - 1]), k, history[|history| - 1])
  }

  ghost predicate Possible(d: Disk, k: int, history: seq<Crash>) {
    history != [] ==>
      && Possible(d, k, history[..|history| - 1])
      && Interrupts(AfterCrashes(d, k, history[..|history| - 1]), k, history[|history| - 1])
  }

  lemma OneCrash(d: Disk, k: int, c: Crash)
    requires Interrupts(d, k, c)
    ensures var e := AfterCrash(d, k, c);
      Ready(e, KeepLast(k)) && Recoverable(e) && Final(e, k) == Final(d, k) && Load(e, k) <= Load(d, k)
  {
    hide Ready, PruneLog, Durable, Image, Final, Load, Recoverable, TxNameOk;
    RetryReady(d, k, c.tx, c.issued, c.durable);
    CrashSafe(d, KeepLast(k), c.tx, c.issued, c.durable);
    SameFinal(d, k, c.tx, c.issued, c.durable);
    LoadShrinks(d, k, c.tx, c.issued, c.durable);
  }

  /** However often power fails during a keep-last prune and its retries, every listed
      snapshot stays recoverable, the next attempt is accepted, and if it runs to its end the
      repository is the one the first attempt was to produce. */
  lemma {:induction false} RetryConverges(d: Disk, k: int, history: seq<Crash>, tx: string)
    requires Ready(d, KeepLast(k)) && Possible(d, k, history)
    ensures var e := AfterCrashes(d, k, history);
      && Ready(e, KeepLast(k)) && Recoverable(e) && Final(e, k) == Final(d, k) && Load(e, k) <= Load(d, k)
      && (TxNameOk(tx) && tx !in e.retired ==>
            && ApplyAll(e, PruneLog(e, KeepLast(k), tx)) == Final(d, k)
            && FinishBytes(e, KeepLast(k), tx) <= Load(d, k))
  {
    hide Ready, Interrupts, PruneLog, Final, Load, Recoverable, TxNameOk, AfterCrash, ApplyAll, FinishBytes;
    if history == [] {
      ReadyRecoverable(d, KeepLast(k));
    } else {
      var m := |history| - 1;
      RetryConverges(d, k, history[..m], tx);
      OneCrash(AfterCrashes(d, k, history[..m]), k, history[m]);
    }
    var e := AfterCrashes(d, k, history);
    if TxNameOk(tx) && tx !in e.retired {
      PruneArrives(e, k, tx);
      FinishBytesLoad(e, k, tx);
    }
  }

  ghost predicate Older(m: string, n: string) {
    Canonical(m) && Canonical(n) && SnapshotTime(m) < SnapshotTime(n)
  }

  /** What the final repository is: the newest snapshots by time, exactly the objects their
      indexes mention, and no transaction. */
  lemma FinalMeaning(d: Disk, k: int)
    requires Ready(d, KeepLast(k))
    ensures var f := Final(d, k);
      && f.retired == map[]
      && |f.snapshots.Keys| == (if |d.snapshots.Keys| < k then |d.snapshots.Keys| else k)
      && f.objects.Keys == Referenced(f, f.snapshots.Keys)
      && forall n, m :: n in f.snapshots && m in d.snapshots && m !in f.snapshots ==> Older(m, n)
  {
    hide Ready, Canonical, SnapshotTime, KeepNames, DropNames, Listing.Of, RetainedHashes, Listing.Less;
    var f := Final(d, k);
    KeptIs(d, k);
    KeptPresent(d, k);
    PlanGivesReady(d, KeepLast(k));
    var keep, drop := KeepNames(d, k), DropNames(d, k);
    assert f.snapshots.Keys == Elements(keep);
    CountKept(d, k);
    ReferencesKept(d, k);
    forall n, m | n in f.snapshots && m in d.snapshots && m !in f.snapshots ensures Older(m, n) {
      assert m in Elements(drop);
      DroppedIsOlder(d, k, m, n);
      NameOrderIsTimeOrder(m, n);
    }
  }

  lemma DroppedIsOlder(d: Disk, k: int, m: string, n: string)
    requires m in DropNames(d, k) && n in KeepNames(d, k)
    ensures Listing.Less(m, n)
  {
    Listing.OfAscending(d.snapshots.Keys);
  }

  lemma CountKept(d: Disk, k: int)
    requires Ready(d, KeepLast(k))
    ensures |Elements(KeepNames(d, k))| == if |d.snapshots.Keys| < k then |d.snapshots.Keys| else k
  {
    hide PendingOk, PlanOk, ArchiveOk, KeepNames, DropNames, Listing.Of;
    KeepPositive(d, k);
    PlanSplits(d, k);
    ListsAscend(d, k);
    AscendingListing(KeepNames(d, k));
  }

  lemma ReferencesKept(d: Disk, k: int)
    requires Ready(d, KeepLast(k))
    ensures Final(d, k).objects.Keys == Referenced(Final(d, k), Final(d, k).snapshots.Keys)
  {
    hide PendingOk, ArchiveOk, KeepNames, Listing.Of, Referenced, PlanOk;
    KeptPresent(d, k);
    var f, keep := Final(d, k), Elements(KeepNames(d, k));
    assert f.snapshots.Keys == keep;
    SameRows(d, f, keep);
    RetainedReferenced(d, k);
    ReferencesStored(d, k);
  }

  lemma ReferencesStored(d: Disk, k: int)
    requires PlanOk(d, k, true)
    ensures Referenced(d, d.snapshots.Keys) <= d.objects.Keys
  {
    hide SnapshotsOk, ObjectsOk, TotalsOk, RowsOf;
    forall h | h in Referenced(d, d.snapshots.Keys) ensures h in d.objects {
      var n :| n in d.snapshots.Keys && h in HashesOf(RowsOf(d, n));
      var i :| 0 <= i < |RowsOf(d, n)| && RowsOf(d, n)[i].hash == h;
      assert RowsOk(d, n);
      assert RowOk(d, RowsOf(d, n)[i]);
    }
  }
}
