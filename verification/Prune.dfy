/** Pruning, operation by operation. */
module Prune {
  import opened Wrappers
  import opened Content
  import opened SnapshotNames
  import opened Repository
  import opened RetentionPlan
  import opened Journal
  import opened PruneSpec
  import opened PruneSteps
  import opened PruneMeaning
  import opened Sums
  import Listing

  datatype Outcome = Refused | Failed | Done(report: Report)

  /** Re-reading every index that is left: the protected hashes. */
  method CurrentReferences(d: Disk) returns (r: Option<set<string>>)
    ensures r.Some? <==> forall n :: n in d.snapshots ==> Canonical(n) && IndexOf(d.snapshots[n]).ok
    ensures r.Some? ==> r.value == Protected(d)
  {
    hide Canonical, RowsOf, IndexOf;
    var names := SnapshotListing(d);
    var protected: set<string> := {};
    assert Referenced(d, Elements(names[..0])) == {};
    for i := 0 to |names|
      invariant forall j :: 0 <= j < i ==> Canonical(names[j]) && IndexOf(d.snapshots[names[j]]).ok
      invariant protected == Referenced(d, Elements(names[..i]))
    {
      var name := names[i];
      assert name in names;
      if !Canonical(name) || !IndexOf(d.snapshots[name]).ok {
        return None;
      }
      assert names[..i + 1] == names[..i] + [name];
      assert Elements(names[..i + 1]) == Elements(names[..i]) + {name};
      ReferencedGrows(d, Elements(names[..i]), name);
      protected := protected + HashesOf(RowsOf(d, name));
    }
    assert names[..|names|] == names;
    assert Elements(names) == d.snapshots.Keys;
    forall n | n in d.snapshots ensures Canonical(n) && IndexOf(d.snapshots[n]).ok {
      assert n in names;
    }
    r := Some(protected);
  }

  class Repo {
    var disk: Disk
    /** The operations performed so far. */
    var log: seq<Op>
    /** How many more file operations succeed before one fails or the process is stopped. */
    var budget: nat

    constructor (d: Disk, operations: nat)
      ensures disk == d && log == [] && budget == operations
    {
      disk, log, budget := d, [], operations;
    }

    method Perform(op: Op) returns (ok: bool)
      modifies this
      ensures ok <==> old(budget) > 0
      ensures ok ==> disk == Apply(old(disk), op) && log == old(log) + [op] && budget == old(budget) - 1
      ensures !ok ==> disk == old(disk) && log == old(log) && budget == 0
    {
      ok := budget > 0;
      if ok {
        disk, log, budget := Apply(disk, op), log + [op], budget - 1;
      }
    }

    /** The next operation of a phase. */
    method Next(op: Op, ghost d0: Disk, ghost log0: seq<Op>, ghost ops: seq<Op>, ghost n: nat)
      returns (ok: bool, ghost m: nat)
      requires Progress(d0, log0, ops, n, disk, log) && n < |ops| && ops[n] == op
      modifies this
      ensures Progress(d0, log0, ops, m, disk, log)
      ensures ok ==> m == n + 1 && disk == Apply(old(disk), op) && budget == old(budget) - 1
      ensures !ok ==> m == n && disk == old(disk) && budget == old(budget) == 0
    {
      ProgressStep(d0, log0, ops, n, disk, log);
      ok := Perform(op);
      m := if ok then n + 1 else n;
    }

    method CreateTransaction(tx: string) returns (ok: bool, ghost n: nat)
      modifies this
      ensures Progress(old(disk), old(log), CreateOps(tx), n, disk, log) && budget == old(budget) - n
      ensures ok <==> n == |CreateOps(tx)|
      ensures !ok ==> budget == 0 || tx in old(disk).retired
      ensures ok ==> tx !in old(disk).retired
    {
      ghost var d0, log0, ops := disk, log, CreateOps(tx);
      n := 0;
      ok, n := Next(MakeRoot, d0, log0, ops, n);
      if !ok { return; }
      ok, n := Next(Sync(RepoRoot), d0, log0, ops, n);
      if !ok { return; }
      if tx in disk.retired {
        return false, n;
      }
      ok, n := Next(MakeTx(tx), d0, log0, ops, n);
      if !ok { return; }
      ok, n := Next(PutMarker(tx), d0, log0, ops, n);
      if !ok { return; }
      ok, n := Next(Sync(TxDir(tx)), d0, log0, ops, n);
      if !ok { return; }
      ok, n := Next(Sync(RetiredRoot), d0, log0, ops, n);
    }

    method RetireAll(names: seq<string>, tx: string) returns (ok: bool, retired: seq<string>, ghost n: nat)
      modifies this
      ensures Progress(old(disk), old(log), RetireOps(names, tx), n, disk, log) && budget == old(budget) - n
      ensures ok <==> n == |RetireOps(names, tx)|
      ensures ok ==> retired == names
      ensures !ok ==> budget == 0
    {
      ghost var d0, log0, ops := disk, log, RetireOps(names, tx);
      n := 0;
      retired := [];
      for i := 0 to |names|
        invariant Progress(d0, log0, ops, n, disk, log) && budget == old(budget) - n
        invariant ops[..n] == RetireOps(names[..i], tx)
        invariant retired == names[..i]
      {
        RetireOpsPrefix(names, tx, i + 1);
        assert names[..i + 1][..i] == names[..i];
        assert ops[n] == Retire(names[i], tx) && ops[n + 1] == Sync(TxDir(tx)) && ops[n + 2] == Sync(SnapshotRoot);
        ok, n := Next(Retire(names[i], tx), d0, log0, ops, n);
        if !ok { return; }
        ok, n := Next(Sync(TxDir(tx)), d0, log0, ops, n);
        if !ok { return; }
        ok, n := Next(Sync(SnapshotRoot), d0, log0, ops, n);
        if !ok { return; }
        retired := retired + [names[i]];
        assert names[..i + 1] == names[..i] + [names[i]];
      }
      assert names[..|names|] == names;
      ok := true;
    }

    /** One unprotected object: it is unlinked, and its size enters the report. */
    method UnlinkOne(name: string, bytes: int, ghost d0: Disk, ghost log0: seq<Op>, ghost bucket: string,
                     ghost protected: set<string>, ghost n: nat)
      returns (ok: bool, bytes': int, ghost m: nat)
      requires n < |Doomed(d0, bucket, protected)| && name == Doomed(d0, bucket, protected)[n]
      requires name !in Doomed(d0, bucket, protected)[..n] && name in d0.objects && d0.objects[name].ObjectFile?
      requires Progress(d0, log0, BucketOps(d0.objects.Keys, protected, bucket), n, disk, log)
      requires var sizes := ObjectSizes(d0.objects);
        0 <= bytes <=
          MAX_INT64 - SumBytes(sizes, Doomed(d0, bucket, protected))
            + SumBytes(sizes, Doomed(d0, bucket, protected)[..n])
      modifies this
      ensures Progress(d0, log0, BucketOps(d0.objects.Keys, protected, bucket), m, disk, log)
      ensures ok ==> m == n + 1 && budget == old(budget) - 1
      ensures ok ==> bytes' == bytes + SizeOf(ObjectSizes(d0.objects), name)
      ensures !ok ==> m == n && budget == old(budget) == 0
    {
      hide Listing.Of, InBucket, BucketOps, ApplyAll, SumBytes, Apply;
      BucketStep(d0, bucket, protected, n);
      var size := |disk.objects[name].data|;
      bytes' := bytes;
      ok, m := Next(Unlink(name), d0, log0, BucketOps(d0.objects.Keys, protected, bucket), n);
      if !ok { return; }
      bytes' := AddBytes(bytes, size).value;
    }

    /** One bucket of the sweep: its unprotected objects are unlinked and counted. */
    method SweepBucket(bucket: string, protected: set<string>, count: nat, bytes: int)
      returns (ok: bool, count': nat, bytes': int, ghost n: nat)
      requires forall h :: h in disk.objects ==> disk.objects[h].ObjectFile?
      requires 0 <= bytes && bytes + BytesOf(ObjectSizes(disk.objects), disk.objects.Keys) <= MAX_INT64
      modifies this
      ensures var doomed := InBucket(old(disk).objects.Keys, bucket) - protected;
        && Progress(old(disk), old(log), BucketOps(old(disk).objects.Keys, protected, bucket), n, disk, log)
        && budget == old(budget) - n
        && (ok <==> n == |BucketOps(old(disk).objects.Keys, protected, bucket)|)
        && (!ok ==> budget == 0)
        && (ok ==> count' == count + |doomed| && bytes' == bytes + BytesOf(ObjectSizes(old(disk).objects), doomed))
        && (ok ==> disk == old(disk).(objects := old(disk).objects - doomed))
    {
      hide Listing.Of, ObjectSizes, InBucket, Filter, BucketOps, ApplyAll, SumBytes, Progress, SizeOf, Apply, Touches,
        BucketName;
      ghost var d0, log0, sizes := disk, log, ObjectSizes(disk.objects);
      var inside := InBucket(disk.objects.Keys, bucket);
      ghost var doomed := inside - protected;
      ghost var hs := Listing.Of(doomed);
      ghost var ops := BucketOps(disk.objects.Keys, protected, bucket);
      var names := Listing.Of(inside);
      BucketFits(d0, bucket, protected);
      n := 0;
      count', bytes' := count, bytes;
      var deleted := false;
      WalkStart(d0, log0, ops, inside, doomed, sizes);
      for i := 0 to |names|
        invariant n <= |hs| && Progress(d0, log0, ops, n, disk, log) && budget == old(budget) - n
        invariant Filter(names[..i], doomed) == hs[..n]
        invariant deleted == (n > 0)
        invariant count' == count + n
        invariant bytes' == bytes + SumBytes(sizes, hs[..n])
      {
        var name := names[i];
        assert name in names;
        WalkStep(inside, doomed, i, n);
        if name !in protected {
          BucketStep(d0, bucket, protected, n);
          ok, bytes', n := UnlinkOne(name, bytes', d0, log0, bucket, protected, n);
          if !ok { return; }
          deleted := true;
          count' := count' + 1;
        }
      }
      assert names[..|names|] == names;
      WalkEnd(inside, doomed, n);
      BucketStep(d0, bucket, protected, n);
      if deleted {
        ok, n := Next(Sync(Bucket(bucket)), d0, log0, ops, n);
        if !ok { return; }
      }
      ok := true;
      BucketDone(d0, log0, bucket, protected, disk, log);
    }

    /** The sweep of the object store, bucket by bucket. */
    method Sweep(protected: set<string>) returns (ok: bool, count: nat, bytes: int, ghost n: nat)
      requires forall h :: h in disk.objects ==> disk.objects[h].ObjectFile?
      requires BytesOf(ObjectSizes(disk.objects), disk.objects.Keys) <= MAX_INT64
      modifies this
      ensures var ops := SweepOps(old(disk).objects.Keys, protected, Listing.Of(Buckets(old(disk).objects.Keys)));
        && Progress(old(disk), old(log), ops, n, disk, log) && budget == old(budget) - n
        && (ok <==> n == |ops|) && (!ok ==> budget == 0)
      ensures var doomed := old(disk).objects.Keys - protected;
        (ok ==> count == |doomed| && bytes == BytesOf(ObjectSizes(old(disk).objects), doomed)) &&
        (ok ==> disk == old(disk).(objects := old(disk).objects - doomed))
    {
      hide Progress, Listing.Of, ObjectSizes, InBucket, BucketOps, BytesOf, SweepOps, Gone;
      ghost var d0, log0 := disk, log;
      var buckets := Listing.Of(Buckets(disk.objects.Keys));
      ghost var ops := SweepOps(d0.objects.Keys, protected, buckets);
      n, count, bytes := 0, 0, 0;
      SweepStart(d0, log0, protected, buckets);
      for i := 0 to |buckets|
        invariant Progress(d0, log0, ops, n, disk, log) && budget == old(budget) - n && n <= |ops|
        invariant ops[..n] == SweepOps(d0.objects.Keys, protected, buckets[..i])
        invariant disk == d0.(objects := d0.objects - Gone(d0, protected, buckets[..i]))
        invariant count == |Gone(d0, protected, buckets[..i])|
        invariant bytes == BytesOf(ObjectSizes(d0.objects), Gone(d0, protected, buckets[..i]))
      {
        ghost var d1, log1 := disk, log;
        ghost var m;
        SweepFits(d0, protected, buckets, i);
        ok, count, bytes, m := SweepBucket(buckets[i], protected, count, bytes);
        SweepAdvance(d0, log0, protected, buckets, i, n, d1, log1, m, disk, log);
        SweepCounts(d0, protected, buckets, i);
        n := n + m;
        if !ok { return; }
      }
      ok := true;
      assert buckets[..|buckets|] == buckets;
      GoneAll(d0, protected);
    }

    /** One retired snapshot: its files, then its directory. */
    method FinishChild(tx: string, name: string, count: nat, bytes: int)
      returns (ok: bool, count': nat, bytes': int, ghost n: nat)
      requires HasTx(disk, tx) && name in disk.retired[tx].children && RetiredChildOk(disk.retired[tx].children[name])
      requires 0 <= bytes <= MAX_INT64
      modifies this
      ensures var node := old(disk).retired[tx].children[name];
        && Progress(old(disk), old(log), ChildOps(tx, name, node), n, disk, log) && budget == old(budget) - n
        && (ok <==> n == |ChildOps(tx, name, node)|)
        && (ok ==> count' == count + |node.files.Keys| && bytes' == bytes + FilesSize(node.files) <= MAX_INT64)
        && (ok ==> disk == WithoutChild(old(disk), tx, name))
        && (!ok ==> budget == 0 || bytes + FilesSize(node.files) > MAX_INT64)
    {
      hide Listing.Of, FileSizes, ApplyAll, Apply, SumBytes, FileExpected, WithoutChild;
      ghost var d0, log0 := disk, log;
      var files := disk.retired[tx].children[name].files;
      var names := Listing.Of(files.Keys);
      ghost var ops := ChildOps(tx, name, disk.retired[tx].children[name]);
      ChildStart(d0, log0, tx, name);
      n, count', bytes' := 0, count, bytes;
      for i := 0 to |names|
        invariant n == i && Progress(d0, log0, ops, n, disk, log) && budget == old(budget) - n
        invariant count' == count + i
        invariant bytes' == bytes + SumBytes(FileSizes(files), names[..i]) <= MAX_INT64
      {
        ChildStep(d0, tx, name, i);
        ok, n := Next(DropFile(tx, name, names[i]), d0, log0, ops, n);
        if !ok { return; }
        count' := count' + 1;
        var sum := AddBytes(bytes', files[names[i]].body.Size());
        if sum == None {
          return false, count', bytes', n;
        }
        bytes' := sum.value;
      }
      assert names[..|names|] == names;
      ChildEnd(d0, tx, name);
      ok, n := Next(Sync(Child(tx, name)), d0, log0, ops, n);
      if !ok { return; }
      ok, n := Next(DropChild(tx, name), d0, log0, ops, n);
      if !ok { return; }
      assert ops[..n] == ops;
    }

    /** The retired snapshots of one transaction. */
    method FinishChildren(tx: string, count: nat, bytes: int)
      returns (ok: bool, count': nat, bytes': int, ghost n: nat)
      requires HasTx(disk, tx) && ChildrenOk(disk.retired[tx].children)
      requires 0 <= bytes <= MAX_INT64
      modifies this
      ensures var node := old(disk).retired[tx];
        && Progress(old(disk), old(log), FinishOps(tx, node), n, disk, log) && budget == old(budget) - n
        && (ok ==>
              TxDone(old(disk), tx, |node.children.Keys|, n, count' - count, bytes' - bytes) && bytes' <= MAX_INT64)
        && (ok ==>
              && HasTx(disk, tx)
              && disk == WithoutChildren(old(disk), tx, Listing.Of(node.children.Keys)[..|node.children.Keys|]))
        && (!ok ==> n < |FinishOps(tx, node)|)
        && (!ok ==> budget == 0 || bytes + SizeOf(TxSizes(old(disk).retired), tx) > MAX_INT64)
    {
      hide Progress, Listing.Of, WithoutChildren, FinishOps, TxSizes, SizeOf, ChildrenOk, ChildOps, ApplyAll, Apply,
        TxDone;
      ghost var d0, log0 := disk, log;
      var names := Listing.Of(disk.retired[tx].children.Keys);
      ghost var ops := FinishOps(tx, disk.retired[tx]);
      n, count', bytes' := 0, count, bytes;
      TxStart(d0, log0, tx);
      for i := 0 to |names|
        invariant Progress(d0, log0, ops, n, disk, log) && budget == old(budget) - n
        invariant TxDone(d0, tx, i, n, count' - count, bytes' - bytes) && 0 <= bytes' <= MAX_INT64
        invariant HasTx(disk, tx) && disk == WithoutChildren(d0, tx, names[..i])
      {
        ghost var d1, log1 := disk, log;
        ghost var m;
        TxChild(d0, tx, i);
        ghost var c1, b1 := count' - count, bytes' - bytes;
        ok, count', bytes', m := FinishChild(tx, names[i], count', bytes');
        TxAdvance(d0, log0, tx, i, n, c1, b1, d1, log1, m, disk, log);
        n := n + m;
        if !ok { return; }
      }
      ok := true;
    }

    /** One transaction: its retired snapshots, its marker, its directory. */
    method FinishTransaction(tx: string, count: nat, bytes: int)
      returns (ok: bool, count': nat, bytes': int, ghost n: nat)
      requires HasTx(disk, tx) && ChildrenOk(disk.retired[tx].children)
      requires 0 <= bytes <= MAX_INT64
      modifies this
      ensures var node := old(disk).retired[tx];
        && Progress(old(disk), old(log), FinishOps(tx, node), n, disk, log) && budget == old(budget) - n
        && (ok <==> n == |FinishOps(tx, node)|)
        && (ok ==> count' == count + SizeOf(TxCounts(old(disk).retired), tx))
        && (ok ==> bytes' == bytes + SizeOf(TxSizes(old(disk).retired), tx) <= MAX_INT64)
        && (ok ==> disk == old(disk).(retired := old(disk).retired - {tx}))
        && (!ok ==> budget == 0 || bytes + SizeOf(TxSizes(old(disk).retired), tx) > MAX_INT64)
    {
      hide Progress, Listing.Of, WithoutChildren, FinishOps, TxSizes, TxCounts, SizeOf, ChildrenOk, ApplyAll, Apply,
        TxDone;
      ghost var d0, log0, ops := disk, log, FinishOps(tx, disk.retired[tx]);
      ok, count', bytes', n := FinishChildren(tx, count, bytes);
      if !ok { return; }
      TxEnd(d0, tx, n, count' - count, bytes' - bytes);
      if disk.retired[tx].marker.Some? {
        ok, n := Next(DropMarker(tx), d0, log0, ops, n);
        if !ok { return; }
      }
      ok, n := RemoveDirectory(tx, d0, log0, ops, n);
    }

    /** The emptied transaction directory itself. */
    method RemoveDirectory(tx: string, ghost d0: Disk, ghost log0: seq<Op>, ghost ops: seq<Op>, ghost n: nat)
      returns (ok: bool, ghost m: nat)
      requires Progress(d0, log0, ops, n, disk, log) && |ops| == n + 3
      requires ops[n] == Sync(TxDir(tx)) && ops[n + 1] == DropTx(tx) && ops[n + 2] == Sync(RetiredRoot)
      modifies this
      ensures Progress(d0, log0, ops, m, disk, log) && n <= m && budget == old(budget) - (m - n)
      ensures ok <==> m == |ops|
      ensures !ok ==> budget == 0
      ensures ok ==> disk == Apply(Apply(Apply(old(disk), Sync(TxDir(tx))), DropTx(tx)), Sync(RetiredRoot))
    {
      hide Progress, Apply;
      ok, m := Next(Sync(TxDir(tx)), d0, log0, ops, n);
      if !ok { return; }
      ok, m := Next(DropTx(tx), d0, log0, ops, m);
      if !ok { return; }
      ok, m := Next(Sync(RetiredRoot), d0, log0, ops, m);
    }

    /** All pending transactions, the recovered ones first. */
    method FinishAll(txs: seq<string>) returns (ok: bool, count: nat, bytes: int, ghost n: nat)
      requires forall i :: 0 <= i < |txs| ==> HasTx(disk, txs[i]) && ChildrenOk(disk.retired[txs[i]].children)
      requires forall i, j :: 0 <= i < j < |txs| ==> txs[i] != txs[j]
      modifies this
      ensures Progress(old(disk), old(log), FinishAllOps(old(disk).retired, txs), n, disk, log)
      ensures budget == old(budget) - n
      ensures ok <==> n == |FinishAllOps(old(disk).retired, txs)|
      ensures ok ==>
        count == SumBytes(TxCounts(old(disk).retired), txs) && bytes == SumBytes(TxSizes(old(disk).retired), txs)
      ensures ok ==> disk == old(disk).(retired := old(disk).retired - Elements(txs))
      ensures !ok ==> budget == 0 || SumBytes(TxSizes(old(disk).retired), txs) > MAX_INT64
    {
      hide Progress, FinishOps, TxSizes, TxCounts, SizeOf, ChildrenOk, SumBytes;
      ghost var d0, log0, ops := disk, log, FinishAllOps(disk.retired, txs);
      n, count, bytes := 0, 0, 0;
      FinishStart(d0, log0, txs);
      for i := 0 to |txs|
        invariant Progress(d0, log0, ops, n, disk, log) && budget == old(budget) - n
        invariant n <= |ops| && ops[..n] == FinishAllOps(d0.retired, txs[..i])
        invariant count == SumBytes(TxCounts(d0.retired), txs[..i])
        invariant bytes == SumBytes(TxSizes(d0.retired), txs[..i]) <= MAX_INT64
        invariant disk == d0.(retired := d0.retired - Elements(txs[..i]))
      {
        ghost var d1, log1 := disk, log;
        ghost var m;
        FinishNext(d0, txs, i);
        ok, count, bytes, m := FinishTransaction(txs[i], count, bytes);
        FinishAdvance(d0, log0, txs, i, n, d1, log1, m, disk, log);
        n := n + m;
        if !ok { return; }
      }
      assert txs[..|txs|] == txs;
      ok := true;
    }

    /** Moving the dropped snapshots out of `snapshots/`, if there are any. */
    method MoveSnapshots(drops: seq<string>, tx: string) returns (ok: bool, retired: seq<string>, ghost n: nat)
      modifies this
      ensures Progress(old(disk), old(log), MoveOps(drops, tx), n, disk, log) && budget == old(budget) - n
      ensures ok <==> n == |MoveOps(drops, tx)|
      ensures ok ==> retired == drops && disk == ApplyAll(old(disk), MoveOps(drops, tx))
      ensures ok ==> drops == [] || tx !in old(disk).retired
      ensures !ok ==> budget == 0 || (drops != [] && tx in old(disk).retired)
    {
      hide ApplyAll, Apply, CreateOps, RetireOps;
      ghost var d0, log0 := disk, log;
      ok, retired, n := true, [], 0;
      ProgressNone(d0, log0, MoveOps(drops, tx));
      if drops != [] {
        ok, n := CreateTransaction(tx);
        ProgressWiden(d0, log0, CreateOps(tx), RetireOps(drops, tx), n, disk, log);
        if !ok {
          RetireOpsNonEmpty(drops, tx);
          return;
        }
        ghost var d1, log1, m := disk, log, n;
        ok, retired, m := RetireAll(drops, tx);
        ProgressJoin(d0, log0, CreateOps(tx), RetireOps(drops, tx), m, d1, log1, disk, log);
        n := n + m;
        if !ok { return; }
      }
      ProgressEnd(d0, log0, MoveOps(drops, tx), disk, log);
    }

    /** The checks before the first change. */
    method Preflight(policy: Policy) returns (r: Option<(seq<string>, seq<string>)>)
      ensures r.Some? <==> Ready(disk, policy)
      ensures r.Some? ==> r.value == (Drops(disk, policy), Listing.Of(disk.retired.Keys))
    {
      hide PendingOk, PlanOk, ArchiveOk, Listing.Of, AuditFigures, DropSnapshotBytes;
      var pending := PendingTransactions(disk);
      if pending == None {
        return None;
      }
      var plan := PlanRetention(disk, PlanKeep(policy), true);
      if plan == None {
        return None;
      }
      var keeps, drops := plan.value.keep, plan.value.drop;
      if policy.DropSelected? {
        var all := plan.value.drop + plan.value.keep;
        assert all == SnapshotListing(disk);
        if policy.name !in all {
          return None;
        }
        keeps, drops := Without(all, policy.name), [policy.name];
      }
      if keeps == [] {
        return None;
      }
      var archives := ValidateRetainedArchives(disk, keeps);
      KeepsCanonical(disk, policy);
      if !archives {
        return None;
      }
      r := Some((drops, pending.value));
    }

    /** What is left under `snapshots/` is read again, and the store is swept. */
    method SweepUnreferenced(policy: Policy, tx: string, txs: seq<string>, ghost d0: Disk, ghost log0: seq<Op>)
      returns (ok: bool, objects: nat, objectBytes: int, ghost n: nat)
      requires AtMoved(d0, log0, policy, tx, txs, disk, log)
      modifies this
      ensures Progress(d0, log0, PruneLog(d0, policy, tx), n, disk, log)
      ensures budget == old(budget) - (n - |MoveOps(Drops(d0, policy), tx)|)
      ensures !ok ==> budget == 0 && n < |PruneLog(d0, policy, tx)|
      ensures ok ==> AtSwept(d0, log0, policy, tx, n, disk, log) && disk.retired == old(disk).retired
      ensures ok ==> SweepReport(d0, policy, tx, objects, objectBytes)
    {
      hide Ready, Progress, PruneLog, SweepOps, MoveOps, Listing.Of, Protected, Drops, Canonical, TxList, ApplyAll,
        ObjectSizes, Buckets, ChildrenOk, BytesOf, HasTx, IndexOf;
      AfterMove(d0, policy, tx);
      ghost var d1, log1, m := disk, log, 0;
      var protected := CurrentReferences(disk);
      ok, objects, objectBytes, m := Sweep(protected.value);
      PhaseTwo(d0, log0, policy, tx, d1, log1, m, disk, log);
      n := |MoveOps(Drops(d0, policy), tx)| + m;
    }

    /** Everything after the snapshots were moved: the sweep, then the transactions. */
    method CleanUp(policy: Policy, tx: string, txs: seq<string>, ghost d0: Disk, ghost log0: seq<Op>)
      returns (ok: bool, objects: nat, objectBytes: int, files: nat, fileBytes: int, ghost n: nat)
      requires AtMoved(d0, log0, policy, tx, txs, disk, log)
      modifies this
      ensures Progress(d0, log0, PruneLog(d0, policy, tx), n, disk, log)
      ensures budget == old(budget) - (n - |MoveOps(Drops(d0, policy), tx)|)
      ensures ok <==> n == |PruneLog(d0, policy, tx)|
      ensures !ok ==> budget == 0 || FinishBytes(d0, policy, tx) > MAX_INT64
      ensures ok ==>
        Report(Drops(d0, policy), |d0.retired.Keys|, objects, objectBytes, files, fileBytes) == ReportOf(d0, policy, tx)
    {
      hide Ready, Progress, PruneLog, Moved, SweepOps, FinishAllOps, MoveOps, Listing.Of, Protected, Drops, TxList,
        ApplyAll, ObjectSizes, ChildrenOk, BytesOf, SumBytes, TxSizes, TxCounts, HasTx, AtSwept;
      objects, objectBytes, files, fileBytes := 0, 0, 0, 0;
      AfterMove(d0, policy, tx);
      ghost var d1 := disk;
      ok, objects, objectBytes, n := SweepUnreferenced(policy, tx, txs, d0, log0);
      if !ok { return; }
      ghost var d2, log2, m := disk, log, 0;
      SameRetired(d1, d2, txs);
      ok, files, fileBytes, m := FinishAll(txs);
      PhaseThree(d0, log0, policy, tx, n, d2, log2, m, disk, log);
      n := n + m;
    }

    /** A whole prune. Until it returns, at most a prefix of its operations has been performed. */
    method Prune(policy: Policy, tx: string) returns (outcome: Outcome, ghost n: nat)
      requires TxNameOk(tx)
      modifies this
      ensures outcome != Refused ==> exists m :: m in old(disk).snapshots && policy != DropSelected(m)
      ensures outcome.Done? ==> Pruned(old(disk), policy, disk) && Counts(old(disk), disk, outcome.report)
      ensures outcome.Done? ==> disk.snapshots.Keys != {}
      ensures outcome.Done? && policy.DropSelected? ==> disk.snapshots == old(disk).snapshots - {policy.name}
      ensures !Ready(old(disk), policy) ==> outcome == Refused && disk == old(disk) && log == old(log)
      ensures Ready(old(disk), policy) ==>
        && Progress(old(disk), old(log), PruneLog(old(disk), policy, tx), n, disk, log) && budget == old(budget) - n
        && (outcome.Done? <==> n == |PruneLog(old(disk), policy, tx)|) && !outcome.Refused?
        && (outcome.Done? ==> outcome.report == ReportOf(old(disk), policy, tx))
        && (outcome.Failed? ==>
              budget == 0 || (Drops(old(disk), policy) != [] && tx in old(disk).retired)
              || FinishBytes(old(disk), policy, tx) > MAX_INT64)
      ensures outcome.Refused? <==> Refusable(old(disk), policy)
    {
      hide Ready, Progress, PruneLog, Moved, SweepOps, FinishAllOps, MoveOps, Listing.Of, Protected, Drops, TxList,
        ApplyAll, ObjectSizes, Buckets, ChildrenOk, BytesOf, SumBytes, TxSizes, TxCounts, PendingOk, PlanOk, ArchiveOk,
        Refusable, Pruned, Counts, ReportOf;
      n := 0;
      RefusedMeaning(disk, policy);
      var checked := Preflight(policy);
      if checked == None {
        return Refused, n;
      }
      var (drops, pending) := checked.value;
      ghost var d0, log0 := disk, log;
      var ok, retired;
      ok, retired, n := MoveSnapshots(drops, tx);
      PhaseOne(d0, log0, policy, tx, n, disk, log);
      if !ok {
        return Failed, n;
      }
      var txs := pending + if drops == [] then [] else [tx];
      TxListIs(d0, policy, tx);
      var objects, objectBytes, files, fileBytes;
      ok, objects, objectBytes, files, fileBytes, n := CleanUp(policy, tx, txs, d0, log0);
      if !ok { return Failed, n; }
      ProgressEnd(d0, log0, PruneLog(d0, policy, tx), disk, log);
      DoneMeaning(d0, policy, tx);
      if policy.DropSelected? { PrunedMeans(d0, policy, disk); }
      SomeLeft(d0, policy, disk);
      outcome := Done(Report(retired, |pending|, objects, objectBytes, files, fileBytes));
    }
  }
}
