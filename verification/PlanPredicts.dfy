/** The read-only plans predict the prune: what they announce is what it deletes. */
module PlanPredicts {
  import opened Wrappers
  import opened Content
  import opened SnapshotNames
  import opened Repository
  import opened RetentionPlan
  import opened Journal
  import opened PruneSpec
  import opened PruneSteps
  import opened Sums
  import Listing

  // ----- the figures of a prune in terms of the repository before it -----

  lemma SameRows(d: Disk, e: Disk, names: set<string>)
    requires forall n :: n in names ==> n in d.snapshots && n in e.snapshots && e.snapshots[n] == d.snapshots[n]
    ensures Referenced(e, names) == Referenced(d, names)
  {
    hide IndexOf, HashesOf;
    forall n | n in names ensures RowsOf(e, n) == RowsOf(d, n) {}
    SameReferences(d, e, names);
  }

  lemma SameReferences(d: Disk, e: Disk, names: set<string>)
    requires forall n :: n in names ==> RowsOf(e, n) == RowsOf(d, n)
    ensures Referenced(e, names) == Referenced(d, names)
  {
    hide RowsOf, HashesOf;
  }

  /** What survives is what the snapshots not dropped mention. */
  lemma ProtectedIs(d: Disk, policy: Policy, tx: string)
    requires Ready(d, policy) && (Drops(d, policy) == [] || tx !in d.retired)
    ensures Protected(Moved(d, policy, tx)) == Referenced(d, d.snapshots.Keys - Elements(Drops(d, policy)))
  {
    hide Ready, Referenced, MoveOps, ApplyAll, Drops;
    DropsPresent(d, policy);
    MoveEffect(d, Drops(d, policy), tx);
    var e := Moved(d, policy, tx);
    var kept := d.snapshots.Keys - Elements(Drops(d, policy));
    assert e.snapshots.Keys == kept;
    SameRows(d, e, kept);
  }

  lemma {:induction false} AscendingListing(names: seq<string>)
    requires Listing.Ascending(names)
    ensures Listing.Of(Elements(names)) == names
  {
    Listing.OfAscending(Elements(names));
    Listing.AscendingUnique(Listing.Of(Elements(names)), names);
  }

  lemma DropsAscending(d: Disk, policy: Policy)
    ensures Listing.Ascending(Drops(d, policy))
  {
    Listing.OfAscending(d.snapshots.Keys);
  }

  /** With no earlier transaction pending, the clean-up deletes the dropped snapshots' files. */
  lemma FinishBytesAre(d: Disk, policy: Policy, tx: string)
    requires Ready(d, policy) && d.retired == map[]
    ensures FinishBytes(d, policy, tx) == SumBytes(SnapshotSizes(d), Drops(d, policy))
  {
    hide Ready, MoveOps, ApplyAll, Drops, FilesSize, Listing.Of, SumBytes, ChildSizes, SnapshotSizes;
    DropsPresent(d, policy);
    MoveEffect(d, Drops(d, policy), tx);
    DropsAscending(d, policy);
    var drops := Drops(d, policy);
    var e := Moved(d, policy, tx);
    EmptyListing();
    if drops == [] {
      assert TxList(d, policy, tx) == [];
      SumNothing(TxSizes(e.retired));
      SumNothing(SnapshotSizes(d));
    } else {
      assert TxList(d, policy, tx) == [tx];
      SumOne(TxSizes(e.retired), tx);
      AscendingListing(drops);
      var children := Chosen(d.snapshots, drops);
      assert children.Keys == Elements(drops);
      ChosenSizes(d, drops);
      SumAgrees(ChildSizes(children), SnapshotSizes(d), drops);
    }
  }

  lemma ChosenSizes(d: Disk, drops: seq<string>)
    requires forall n :: n in drops ==> n in d.snapshots
    ensures forall n :: n in drops ==> SizeOf(ChildSizes(Chosen(d.snapshots, drops)), n) == SizeOf(SnapshotSizes(d), n)
  {
    hide FilesSize;
  }

  lemma EmptyListing()
    ensures Listing.Of({}) == []
  {
  }

  lemma SumNothing(sizes: map<string, nat>)
    ensures SumBytes(sizes, []) == 0
  {
  }

  lemma SumOne(sizes: map<string, nat>, name: string)
    ensures SumBytes(sizes, [name]) == SizeOf(sizes, name)
  {
    assert [name][..0] == [];
  }

  /** Plan and prune agree, object by object and byte by byte. In particular the prune's
      counters cannot overflow. */
  lemma PlanPredictsPrune(d: Disk, keepLast: int, tx: string)
    requires Ready(d, KeepLast(keepLast)) && d.retired == map[]
    ensures var plan, report := PlanOf(d, keepLast, true), ReportOf(d, KeepLast(keepLast), tx);
      && report.retiredSnapshots == plan.drop
      && report.recoveredTransactions == 0
      && report.deletedObjects == plan.dropOnlyObjects + plan.unreferencedObjects
      && report.deletedObjectBytes == plan.dropOnlyObjectBytes + plan.unreferencedBytes
      && report.deletedFileBytes == plan.dropSnapshotBytes
      && report.deletedObjectBytes + report.deletedFileBytes == plan.potentialLogicalBytes <= MAX_INT64
      && plan.retainedObjects + report.deletedObjects == |d.objects.Keys|
  {
    hide Moved, Referenced, SnapshotSizes, ObjectSizes, BytesOf, SumBytes, SnapshotsOk, ObjectsOk, ReferencesOk,
      Listing.Of, PendingOk, ArchiveOk, FinishBytes;
    var policy := KeepLast(keepLast);
    ProtectedIs(d, policy, tx);
    FinishBytesAre(d, policy, tx);
    KeptIs(d, keepLast);
    RetainedReferenced(d, keepLast);
    DropFigures(ObjectSizes(d.objects), d.objects.Keys, Referenced(d, d.snapshots.Keys), RetainedHashes(d, keepLast));
  }

  lemma DropFigures(sizes: map<string, nat>, keys: set<string>, all: set<string>, retained: set<string>)
    requires retained <= all
    ensures |keys - retained| == |keys * (all - retained)| + |keys - all|
    ensures BytesOf(sizes, keys - retained) == BytesOf(sizes, keys * (all - retained)) + BytesOf(sizes, keys - all)
    ensures |keys * retained| + |keys - retained| == |keys|
  {
    hide BytesOf;
    BytesSplit(sizes, keys * (all - retained), keys - all);
    assert keys - retained == keys * (all - retained) + (keys - all);
    BytesSplit(sizes, keys * retained, keys - retained);
    assert keys * retained + (keys - retained) == keys;
  }

  lemma KeptIs(d: Disk, keepLast: int)
    ensures d.snapshots.Keys - Elements(DropNames(d, keepLast)) == Elements(KeepNames(d, keepLast))
  {
    hide Listing.Of, Elements;
    Listing.OfAscending(d.snapshots.Keys);
    AscendingPartition(SnapshotListing(d), DropCount(d, keepLast));
    ListingElements(d.snapshots.Keys);
  }

  lemma ListingElements(s: set<string>)
    ensures Elements(Listing.Of(s)) == s
  {
  }

  lemma AscendingPartition(names: seq<string>, k: nat)
    requires Listing.Ascending(names) && k <= |names|
    ensures Elements(names[..k]) !! Elements(names[k..])
    ensures Elements(names[..k]) + Elements(names[k..]) == Elements(names)
  {
    forall x | x in names[k..] ensures x !in names[..k] {
      var i :| k <= i < |names| && names[i] == x;
      forall j | 0 <= j < k ensures names[j] != x {
        Listing.LessTotal(names[j], names[i]);
      }
    }
    assert names == names[..k] + names[k..];
  }

  // ----- the preview of a selected deletion -----

  datatype SelectedPlan = SelectedPlan(
    committedSnapshots: nat, survivingSnapshots: nat, selectedSnapshotBytes: int,
    selectedObjects: nat, sharedObjects: nat, exclusiveObjects: nat, exclusiveBytes: int,
    unreferencedObjects: nat, unreferencedBytes: int, potentialLogicalBytes: int,
    hashedObjects: nat, hashedBytes: int)

  function Others(d: Disk, name: string): set<string> {
    d.snapshots.Keys - {name}
  }

  function SelectedHashes(d: Disk, name: string): set<string> {
    HashesOf(RowsOf(d, name))
  }

  function ExclusiveHashes(d: Disk, name: string): set<string> {
    SelectedHashes(d, name) - Referenced(d, Others(d, name))
  }

  ghost predicate PreviewOk(d: Disk, name: string, deep: bool) {
    && Selectable(d, name, deep)
    && SizeOf(SnapshotSizes(d), name) + BytesOf(ObjectSizes(d.objects), ExclusiveHashes(d, name))
       + PlanOf(d, 1, deep).unreferencedBytes <= MAX_INT64
  }

  function PreviewOf(d: Disk, name: string, deep: bool): SelectedPlan {
    var plan := PlanOf(d, 1, deep);
    var bytes, exclusive := SizeOf(SnapshotSizes(d), name), BytesOf(ObjectSizes(d.objects), ExclusiveHashes(d, name));
    SelectedPlan(plan.committedSnapshots, |Others(d, name)|, bytes, |SelectedHashes(d, name)|,
      |SelectedHashes(d, name) * Referenced(d, Others(d, name))|, |ExclusiveHashes(d, name)|, exclusive,
      plan.unreferencedObjects, plan.unreferencedBytes, bytes + exclusive + plan.unreferencedBytes,
      plan.hashedObjects, plan.hashedBytes)
  }

  /** The hashes that the surviving snapshots mention. */
  method ReferencedElsewhere(d: Disk, names: seq<string>) returns (hashes: set<string>)
    ensures hashes == Referenced(d, Elements(names))
  {
    hide RowsOf, HashesOf;
    hashes := {};
    assert Referenced(d, Elements(names[..0])) == {};
    for i := 0 to |names|
      invariant hashes == Referenced(d, Elements(names[..i]))
    {
      assert names[..i + 1] == names[..i] + [names[i]];
      assert Elements(names[..i + 1]) == Elements(names[..i]) + {names[i]};
      ReferencedGrows(d, Elements(names[..i]), names[i]);
      hashes := hashes + HashesOf(RowsOf(d, names[i]));
    }
    assert names[..|names|] == names;
  }

  /** Where the count of the selected objects stands after some of them. */
  ghost predicate Counted(table: map<string, nat>, elsewhere: set<string>, done: seq<string>, shared: nat,
      exclusive: nat, bytes: int) {
    && shared == |Filter(done, elsewhere)|
    && exclusive == |Filter(done, table.Keys - elsewhere)|
    && bytes == SumBytes(table, Filter(done, table.Keys - elsewhere))
  }

  lemma CountStep(table: map<string, nat>, elsewhere: set<string>, i: nat, shared: nat, exclusive: nat, bytes: int)
    requires i < |table.Keys| && Counted(table, elsewhere, Listing.Of(table.Keys)[..i], shared, exclusive, bytes)
    ensures var names := Listing.Of(table.Keys);
      && names[i] in table && 0 <= bytes
      && (names[i] in elsewhere ==> Counted(table, elsewhere, names[..i + 1], shared + 1, exclusive, bytes))
      && (names[i] !in elsewhere ==>
            Counted(table, elsewhere, names[..i + 1], shared, exclusive + 1, bytes + table[names[i]]))
      && (names[i] !in elsewhere ==> bytes + table[names[i]] <= BytesOf(table, table.Keys - elsewhere))
  {
    hide Listing.Of, Filter, SumBytes;
    var names, mine := Listing.Of(table.Keys), table.Keys - elsewhere;
    assert names[i] in names;
    FilterStep(table, names, elsewhere, i);
    FilterStep(table, names, mine, i);
    CountBound(table, mine, i + 1);
  }

  lemma CountBound(table: map<string, nat>, mine: set<string>, i: nat)
    requires i <= |table.Keys| && mine <= table.Keys
    ensures SumBytes(table, Filter(Listing.Of(table.Keys)[..i], mine)) <= BytesOf(table, mine)
  {
    hide Listing.Of, Filter, SumBytes;
    var names := Listing.Of(table.Keys);
    FilterPrefix(names, mine, i);
    FilterIsListing(table.Keys, mine);
    assert table.Keys * mine == mine;
    var f := Filter(names[..i], mine);
    assert Listing.Of(mine)[..|f|] == f;
    SumBytesPrefix(table, Listing.Of(mine), |f|);
  }

  lemma CountStart(table: map<string, nat>, elsewhere: set<string>)
    ensures Counted(table, elsewhere, Listing.Of(table.Keys)[..0], 0, 0, 0)
  {
  }

  lemma CountDone(table: map<string, nat>, elsewhere: set<string>, s: nat, x: nat, b: int)
    requires Counted(table, elsewhere, Listing.Of(table.Keys)[..|table.Keys|], s, x, b)
    ensures s == |table.Keys * elsewhere| && x == |table.Keys - elsewhere|
    ensures b == BytesOf(table, table.Keys - elsewhere)
  {
    hide SumBytes, Filter, Listing.Of;
    var names := Listing.Of(table.Keys);
    assert names[..|names|] == names;
    FilterIsListing(table.Keys, elsewhere);
    FilterIsListing(table.Keys, table.Keys - elsewhere);
    assert table.Keys * (table.Keys - elsewhere) == table.Keys - elsewhere;
  }

  /** The selected snapshot's objects, shared and exclusive. */
  method CountSelected(table: map<string, nat>, elsewhere: set<string>)
    returns (r: Option<(nat, nat, int)>)
    ensures r.Some? <==> BytesOf(table, table.Keys - elsewhere) <= MAX_INT64
    ensures r.Some? ==>
      r.value == (|table.Keys * elsewhere|, |table.Keys - elsewhere|, BytesOf(table, table.Keys - elsewhere))
  {
    hide Listing.Of, Filter, BytesOf, SumBytes, Counted;
    var names := Listing.Of(table.Keys);
    var shared, exclusive, bytes := 0, 0, 0;
    CountStart(table, elsewhere);
    for i := 0 to |names|
      invariant Counted(table, elsewhere, names[..i], shared, exclusive, bytes) && bytes <= MAX_INT64
    {
      CountStep(table, elsewhere, i, shared, exclusive, bytes);
      if names[i] in elsewhere {
        shared := shared + 1;
      } else {
        var sum := AddBytes(bytes, table[names[i]]);
        if sum == None {
          return None;
        }
        exclusive, bytes := exclusive + 1, sum.value;
      }
    }
    CountDone(table, elsewhere, shared, exclusive, bytes);
    r := Some((shared, exclusive, bytes));
  }

  lemma TableSizes(d: Disk, name: string, table: map<string, nat>, s: set<string>)
    requires ReferencesOk(d) && name in d.snapshots && s <= table.Keys
    requires table.Keys == SelectedHashes(d, name) && Agrees(table, RowsOf(d, name))
    ensures BytesOf(table, s) == BytesOf(ObjectSizes(d.objects), s)
  {
    hide RowsOf;
    forall h | h in s ensures SizeOf(table, h) == SizeOf(ObjectSizes(d.objects), h) {
      var i :| 0 <= i < |RowsOf(d, name)| && RowsOf(d, name)[i].hash == h;
      assert RowsOk(d, name);
      assert RowOk(d, RowsOf(d, name)[i]);
    }
    SumAgrees(table, ObjectSizes(d.objects), Listing.Of(s));
  }

  /** What the preview demands, apart from its own sums. */
  ghost predicate Selectable(d: Disk, name: string, deep: bool) {
    && name in d.snapshots && PlanOk(d, 1, deep)
    && |d.snapshots.Keys| >= 2 && d.retired == map[]
    && forall n :: n in Others(d, name) ==> ArchiveOk(d, n)
  }

  lemma PlanNames(d: Disk, deep: bool)
    ensures PlanOf(d, 1, deep).drop + PlanOf(d, 1, deep).keep == SnapshotListing(d)
  {
    hide AuditFigures, DropSnapshotBytes, Listing.Of;
  }

  lemma OthersPresent(d: Disk, name: string)
    ensures forall n :: n in Others(d, name) ==> n in d.snapshots
  {
  }

  method NothingPending(d: Disk) returns (ok: bool)
    ensures ok <==> d.retired == map[]
  {
    hide PendingOk, Listing.Of;
    EmptyMeansNoKeys(d);
    var pending := PendingTransactions(d);
    ok := pending.Some? && |pending.value| == 0;
  }

  /** The snapshots that would survive, if they are there and can all be restored. */
  method Survivors(d: Disk, name: string, plan: Plan, deep: bool) returns (r: Option<seq<string>>)
    requires PlanOk(d, 1, deep) && plan == PlanOf(d, 1, deep)
    ensures r.Some? <==> name in d.snapshots && forall n :: n in Others(d, name) ==> ArchiveOk(d, n)
    ensures r.Some? ==> Elements(r.value) == Others(d, name) && |r.value| == |Others(d, name)|
  {
    hide PlanOk, ArchiveOk, PlanOf, Canonical, Listing.Of, Others, Without;
    r := None;
    PlanNames(d, deep);
    RetainedNames(d, name);
    AllCanonical(d, deep);
    OthersPresent(d, name);
    if name in plan.drop + plan.keep {
      var retained := Without(plan.drop + plan.keep, name);
      var archives := ValidateRetainedArchives(d, retained);
      assert forall n :: n in retained <==> n in Elements(retained);
      r := if archives then Some(retained) else None;
    }
  }

  /** The read-only preview of deleting exactly one snapshot. */
  method PlanSelectedPrune(d: Disk, name: string, deep: bool) returns (r: Option<SelectedPlan>)
    ensures r.Some? <==> PreviewOk(d, name, deep)
    ensures r.Some? ==> r.value == PreviewOf(d, name, deep)
  {
    hide PlanOk, ArchiveOk, AuditFigures, DropSnapshotBytes, BytesOf, SizeOf, Canonical, Others;
    r := None;
    if PreviewOk(d, name, deep) { CanonicalNeeded(d, name, deep); }
    if Canonical(name) {
      var plan := PlanRetention(d, 1, deep);
      if plan.Some? && plan.value.committedSnapshots >= 2 {
        var settled := NothingPending(d);
        var retained := Survivors(d, name, plan.value, deep);
        if settled && retained.Some? {
          r := PreviewFigures(d, name, deep, plan.value, retained.value);
        }
      }
    }
  }

  lemma CanonicalNeeded(d: Disk, name: string, deep: bool)
    requires PreviewOk(d, name, deep)
    ensures Canonical(name)
  {
    hide Canonical;
    assert SnapshotOk(d, name);
  }

  lemma EmptyMeansNoKeys(d: Disk)
    ensures d.retired == map[] ==> PendingOk(d)
    ensures |Listing.Of(d.retired.Keys)| == 0 <==> d.retired == map[]
  {
    assert |d.retired.Keys| == 0 ==> d.retired.Keys == {};
    assert d.retired.Keys == {} ==> d.retired == map[];
  }

  lemma AllCanonical(d: Disk, deep: bool)
    requires PlanOk(d, 1, deep)
    ensures forall n :: n in d.snapshots ==> Canonical(n)
  {
    hide Canonical;
    forall n | n in d.snapshots ensures Canonical(n) { assert SnapshotOk(d, n); }
  }

  /** The surviving names, listed once each. */
  lemma RetainedNames(d: Disk, name: string)
    ensures Elements(Without(SnapshotListing(d), name)) == Others(d, name)
    ensures NoRepeats(Without(SnapshotListing(d), name))
    ensures |Without(SnapshotListing(d), name)| == |Others(d, name)|
  {
    var names := SnapshotListing(d);
    WithoutElements(names, name);
    Listing.OfAscending(d.snapshots.Keys);
    WithoutAscending(names, name);
    AscendingListing(Without(names, name));
    var r := Without(names, name);
    forall i, j | 0 <= i < j < |r| ensures r[i] != r[j] { Listing.LessTotal(r[i], r[j]); }
  }

  lemma {:induction false} WithoutAscending(names: seq<string>, name: string)
    requires Listing.Ascending(names)
    ensures Listing.Ascending(Without(names, name))
  {
    if names != [] {
      var k := |names| - 1;
      WithoutAscending(names[..k], name);
      WithoutElements(names[..k], name);
      var w := Without(names[..k], name);
      forall i | 0 <= i < |w| ensures Listing.Less(w[i], names[k]) {
        assert w[i] in names[..k];
      }
    }
  }

  method PreviewFigures(d: Disk, name: string, deep: bool, plan: Plan, retained: seq<string>)
    returns (r: Option<SelectedPlan>)
    requires name in d.snapshots && PlanOk(d, 1, deep) && plan == PlanOf(d, 1, deep)
    requires Elements(retained) == Others(d, name) && |retained| == |Others(d, name)|
    ensures r.Some? <==>
      (SizeOf(SnapshotSizes(d), name) + BytesOf(ObjectSizes(d.objects), ExclusiveHashes(d, name))
       + plan.unreferencedBytes <= MAX_INT64)
    ensures r.Some? ==> r.value == PreviewOf(d, name, deep)
  {
    hide PlanOk, AuditFigures, DropSnapshotBytes, Referenced, RowsOf, BytesOf, SnapshotSizes, ObjectSizes, SizeOf,
      SelectedHashes, Listing.Of, Others, FilesSize, PlanOf;
    var elsewhere := ReferencedElsewhere(d, retained);
    var table := SelectedTable(d, name, deep);
    TableSizes(d, name, table, table.Keys - elsewhere);
    var counts := CountSelected(table, elsewhere);
    PreviewBytes(d, name, deep);
    var snapshotBytes := FilesSize(d.snapshots[name].files);
    if counts == None {
      return None;
    }
    var (shared, exclusive, bytes) := counts.value;
    var potential := AddAll(snapshotBytes, bytes, plan.unreferencedBytes);
    if potential == None {
      return None;
    }
    r := Some(SelectedPlan(plan.committedSnapshots, |retained|, snapshotBytes, |table.Keys|, shared, exclusive, bytes,
      plan.unreferencedObjects, plan.unreferencedBytes, potential.value, plan.hashedObjects, plan.hashedBytes));
  }

  /** The selected snapshot's own table of sizes. */
  method SelectedTable(d: Disk, name: string, deep: bool) returns (table: map<string, nat>)
    requires name in d.snapshots && PlanOk(d, 1, deep)
    ensures ReferencesOk(d) && table.Keys == SelectedHashes(d, name) && Agrees(table, RowsOf(d, name))
  {
    hide RowsOf, ReferencesOk, TotalsOk;
    var rows := RowsOf(d, name);
    RowsDistinct(d, name);
    var entered := EnterRows(rows, map[]);
    table := entered.value;
  }

  lemma PreviewBytes(d: Disk, name: string, deep: bool)
    requires name in d.snapshots && PlanOk(d, 1, deep)
    ensures d.snapshots[name].SnapshotDir?
    ensures 0 <= FilesSize(d.snapshots[name].files) <= MAX_INT64
    ensures SizeOf(SnapshotSizes(d), name) == FilesSize(d.snapshots[name].files)
    ensures 0 <= PlanOf(d, 1, deep).unreferencedBytes <= MAX_INT64
  {
    hide AuditFigures, DropSnapshotBytes, FilesSize;
    assert SnapshotOk(d, name);
  }

  /** A preview promises a deletion that the prune accepts, if every object has its digest, as a
      deep preview has checked. */
  lemma PreviewedIsReady(d: Disk, name: string, deep: bool)
    requires Selectable(d, name, deep)
    ensures Ready(d, DropSelected(name)) <==> PlanOk(d, 1, true)
    ensures deep ==> Ready(d, DropSelected(name))
  {
    hide PlanOk, ArchiveOk, PendingOk, Others, Keeps, Ready;
    EmptyMeansNoKeys(d);
    OthersKept(d, name);
    ReadyToDelete(d, name);
  }

  lemma ReadyToDelete(d: Disk, name: string)
    requires name in d.snapshots && PendingOk(d)
    ensures Ready(d, DropSelected(name)) <==>
      && PlanOk(d, 1, true) && Keeps(d, DropSelected(name)) != []
      && forall n :: n in Keeps(d, DropSelected(name)) ==> ArchiveOk(d, n)
  {
    hide PlanOk, ArchiveOk, PendingOk, Keeps;
  }

  lemma OthersKept(d: Disk, name: string)
    ensures forall n :: n in Keeps(d, DropSelected(name)) <==> n in Others(d, name)
    ensures |d.snapshots.Keys| >= 2 ==> Keeps(d, DropSelected(name)) != []
  {
    hide Listing.Of, Without, SnapshotListing;
    RetainedNames(d, name);
    var keeps := Keeps(d, DropSelected(name));
    assert forall n :: n in keeps <==> n in Elements(keeps);
    assert |Others(d, name)| >= |d.snapshots.Keys| - 1;
  }

  /** The preview of deleting one snapshot predicts that deletion. */
  lemma PreviewPredictsPrune(d: Disk, name: string, deep: bool, tx: string)
    requires PreviewOk(d, name, deep)
    ensures deep ==> Ready(d, DropSelected(name))
    ensures Ready(d, DropSelected(name)) ==>
      var preview, report := PreviewOf(d, name, deep), ReportOf(d, DropSelected(name), tx);
      && report.retiredSnapshots == [name]
      && report.deletedObjects == preview.exclusiveObjects + preview.unreferencedObjects
      && report.deletedObjectBytes == preview.exclusiveBytes + preview.unreferencedBytes
      && report.deletedFileBytes == preview.selectedSnapshotBytes
      && report.deletedObjectBytes + report.deletedFileBytes == preview.potentialLogicalBytes <= MAX_INT64
      && preview.sharedObjects + preview.exclusiveObjects == preview.selectedObjects
  {
    hide Moved, SnapshotSizes, ObjectSizes, BytesOf, SumBytes, SnapshotsOk, ObjectsOk, ReferencesOk, Listing.Of,
      Protected, PendingOk, ArchiveOk, FinishBytes, RowsOf, Referenced, Others, UnreferencedHashes, ExclusiveHashes,
      SelectedHashes, Ready;
    PreviewedIsReady(d, name, deep);
    if Ready(d, DropSelected(name)) {
      ProtectedIs(d, DropSelected(name), tx);
      FinishBytesAre(d, DropSelected(name), tx);
      SumOne(SnapshotSizes(d), name);
      SelectedFigures(d, name);
    }
  }

  lemma SelectedFigures(d: Disk, name: string)
    requires ReferencesOk(d) && name in d.snapshots
    ensures var sizes, doomed :=
      ObjectSizes(d.objects), d.objects.Keys - Referenced(d, d.snapshots.Keys - Elements([name]));
      && |doomed| == |ExclusiveHashes(d, name)| + |UnreferencedHashes(d)|
      && BytesOf(sizes, doomed) == BytesOf(sizes, ExclusiveHashes(d, name)) + BytesOf(sizes, UnreferencedHashes(d))
      && |SelectedHashes(d, name) * Referenced(d, Others(d, name))| + |ExclusiveHashes(d, name)| ==
        |SelectedHashes(d, name)|
  {
    hide ObjectSizes, BytesOf, ReferencesOk, RowsOf, HashesOf, Referenced;
    assert Elements([name]) == {name};
    ReferencedGrows(d, Others(d, name), name);
    assert Others(d, name) + {name} == d.snapshots.Keys;
    SelectedStored(d, name);
    SetFigures(ObjectSizes(d.objects), d.objects.Keys, Referenced(d, Others(d, name)), SelectedHashes(d, name));
  }

  lemma SetFigures(sizes: map<string, nat>, keys: set<string>, others: set<string>, selected: set<string>)
    requires selected <= keys
    ensures |keys - others| == |selected - others| + |keys - (others + selected)|
    ensures BytesOf(sizes, keys - others) ==
      BytesOf(sizes, selected - others) + BytesOf(sizes, keys - (others + selected))
    ensures |selected * others| + |selected - others| == |selected|
  {
    hide BytesOf;
    BytesSplit(sizes, selected - others, keys - (others + selected));
    assert keys - others == (selected - others) + (keys - (others + selected));
    BytesSplit(sizes, selected * others, selected - others);
    assert selected * others + (selected - others) == selected;
  }

  lemma SelectedStored(d: Disk, name: string)
    requires ReferencesOk(d) && name in d.snapshots
    ensures SelectedHashes(d, name) <= d.objects.Keys
  {
    hide RowsOf;
    forall h | h in SelectedHashes(d, name) ensures h in d.objects {
      var i :| 0 <= i < |RowsOf(d, name)| && RowsOf(d, name)[i].hash == h;
      assert RowsOk(d, name);
      assert RowOk(d, RowsOf(d, name)[i]);
    }
  }
}
