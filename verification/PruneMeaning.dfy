/** What a prune demands and what it leaves, said of the repository alone: which snapshots
    survive, when it is refused, and what is there at its end. */
module PruneMeaning {
  import opened Content
  import opened SnapshotNames
  import opened Repository
  import opened RetentionPlan
  import opened Journal
  import opened PruneSpec
  import opened PruneSteps
  import opened PlanPredicts
  import opened PruneRetry
  import opened Sums
  import Listing

  function Newer(names: set<string>, n: string): set<string> {
    set m | m in names && Listing.Less(n, m)
  }

  /** A snapshot survives if fewer than `count` are newer, or if it is not the one named. */
  predicate Survives(d: Disk, policy: Policy, n: string) {
    n in d.snapshots &&
    match policy
    case KeepLast(count) => |Newer(d.snapshots.Keys, n)| < count
    case DropSelected(name) => n != name
  }

  /** The index of a snapshot has a row for a hash. */
  ghost predicate Mentions(d: Disk, n: string, h: string) {
    exists row :: HasRow(d, n, row) && row.hash == h
  }

  // ----- which snapshots survive -----

  lemma NewerAre(names: seq<string>, i: nat)
    requires Listing.Ascending(names) && i < |names|
    ensures |Newer(Elements(names), names[i])| == |names| - 1 - i
  {
    hide Listing.Less, Listing.Of;
    var newer := names[i + 1..];
    forall m | m in Newer(Elements(names), names[i]) ensures m in newer {
      var j :| 0 <= j < |names| && names[j] == m;
      Listing.LessTotal(names[i], names[j]);
      assert newer[j - i - 1] == m;
    }
    forall m | m in newer ensures m in Newer(Elements(names), names[i]) {
      var j :| 0 <= j < |newer| && newer[j] == m;
      assert names[i + 1 + j] == m;
    }
    assert Newer(Elements(names), names[i]) == Elements(newer);
    CountAscending(newer);
  }

  lemma CountAscending(names: seq<string>)
    requires Listing.Ascending(names)
    ensures |Elements(names)| == |names|
  {
    AscendingListing(names);
    assert |Listing.Of(Elements(names))| == |Elements(names)|;
  }

  lemma NewestSurvive(d: Disk, k: int, n: string)
    requires k >= 1
    ensures n in KeepNames(d, k) <==> Survives(d, KeepLast(k), n)
  {
    hide Listing.Less, Listing.Of, Newer;
    var names, c := SnapshotListing(d), DropCount(d, k);
    Listing.OfAscending(d.snapshots.Keys);
    if n in d.snapshots {
      assert n in names;
      var i :| 0 <= i < |names| && names[i] == n;
      NewerAre(names, i);
      ListingElements(d.snapshots.Keys);
      Placed(names, i, c);
    } else {
      KeptPresent(d, k);
    }
  }

  lemma Placed(names: seq<string>, i: nat, c: nat)
    requires Listing.Ascending(names) && i < |names| && c <= |names|
    ensures names[i] in names[c..] <==> c <= i
  {
    if c <= i { assert names[c..][i - c] == names[i]; }
    if names[i] in names[c..] {
      var j :| 0 <= j < |names| - c && names[c..][j] == names[i];
      assert names[c + j] == names[i];
      Listing.LessTotal(names[i], names[c + j]);
    }
  }

  lemma SurvivorsAre(d: Disk, policy: Policy)
    requires policy.KeepLast? ==> policy.count >= 1
    ensures forall n :: n in Keeps(d, policy) <==> Survives(d, policy, n)
    ensures forall n :: n in d.snapshots && n !in Drops(d, policy) <==> Survives(d, policy, n)
  {
    hide KeepNames, DropNames, Listing.Of, Listing.Less;
    forall n ensures n in Keeps(d, policy) <==> Survives(d, policy, n) {
      match policy {
        case KeepLast(k) => NewestSurvive(d, k, n);
        case DropSelected(name) => WithoutElements(SnapshotListing(d), name);
      }
    }
    forall n ensures n in d.snapshots && n !in Drops(d, policy) <==> Survives(d, policy, n) {
      match policy {
        case KeepLast(k) => KeptIs(d, k); NewestSurvive(d, k, n);
          assert n in Elements(DropNames(d, k)) <==> n in DropNames(d, k);
          assert n in Elements(KeepNames(d, k)) <==> n in KeepNames(d, k);
        case DropSelected(name) =>
      }
    }
  }

  // ----- when a prune is refused -----

  /** A prune is accepted exactly if journal and repository are in order, a snapshot named
      for deletion is there, some snapshot survives, and every survivor can be restored. */
  lemma ReadyMeaning(d: Disk, policy: Policy)
    ensures Ready(d, policy) <==>
      && PendingOk(d) && PlanOk(d, if policy.KeepLast? then policy.count else 1, true)
      && (policy.DropSelected? ==> policy.name in d.snapshots)
      && (exists m :: Survives(d, policy, m))
      && (forall m :: Survives(d, policy, m) ==> ArchiveOk(d, m))
  {
    hide PendingOk, ArchiveOk, Keeps, Survives, SnapshotsOk, ObjectsOk, ReferencesOk, TotalsOk;
    if PlanOk(d, PlanKeep(policy), true) {
      SurvivorsAre(d, policy);
      if Keeps(d, policy) != [] { assert Keeps(d, policy)[0] in Keeps(d, policy); }
    }
  }

  /** A prune is refused: the journal or the repository is not in order, the snapshot named is
      not there, no other one is, or some survivor cannot be restored. */
  ghost predicate Refusable(d: Disk, policy: Policy) {
    || !PendingOk(d) || !PlanOk(d, if policy.KeepLast? then policy.count else 1, true)
    || (policy.DropSelected? && policy.name !in d.snapshots)
    || (forall m :: m in d.snapshots ==> policy == DropSelected(m))
    || (exists m :: Survives(d, policy, m) && !ArchiveOk(d, m))
  }

  lemma RefusedMeaning(d: Disk, policy: Policy)
    ensures !Ready(d, policy) <==> Refusable(d, policy)
    ensures Ready(d, policy) ==> exists m :: m in d.snapshots && policy != DropSelected(m)
  {
    hide PendingOk, ArchiveOk, SnapshotsOk, ObjectsOk, ReferencesOk, TotalsOk, Ready, Newer;
    ReadyMeaning(d, policy);
    if policy.KeepLast? && policy.count >= 1 && d.snapshots.Keys != {} {
      var m := NewestOf(d);
      assert Survives(d, policy, m);
    }
    if policy.DropSelected? {
      assert forall m :: m in d.snapshots && m != policy.name ==> Survives(d, policy, m);
    }
  }

  lemma NewestOf(d: Disk) returns (m: string)
    requires d.snapshots.Keys != {}
    ensures m in d.snapshots && |Newer(d.snapshots.Keys, m)| == 0
  {
    hide Newer, Listing.Less, Listing.Of;
    var names := SnapshotListing(d);
    assert |names| == |d.snapshots.Keys| != 0;
    m := names[|names| - 1];
    assert m in names;
    Listing.OfAscending(d.snapshots.Keys);
    ListingElements(d.snapshots.Keys);
    NewerAre(names, |names| - 1);
  }

  /** A snapshot survives every prune that is accepted. */
  lemma OneSurvives(d: Disk, policy: Policy) returns (m: string)
    requires Ready(d, policy)
    ensures m in d.snapshots && policy != DropSelected(m) && Survives(d, policy, m)
  {
    hide PendingOk, PlanOk, ArchiveOk, Listing.Less;
    ReadyMeaning(d, policy);
    m :| Survives(d, policy, m);
  }

  // ----- what is there at its end -----

  /** A survivor's index mentions the hash. */
  ghost predicate Needed(d: Disk, policy: Policy, h: string) {
    exists n :: Survives(d, policy, n) && Mentions(d, n, h)
  }

  /** The survivors are left as they were, with the objects that their indexes mention, and
      nothing else. */
  ghost predicate Pruned(d: Disk, policy: Policy, e: Disk) {
    && e.retired == map[] && e.snapshots.Keys != {}
    && (forall n :: n in e.snapshots <==> Survives(d, policy, n))
    && (forall n :: n in e.snapshots ==> n in d.snapshots && e.snapshots[n] == d.snapshots[n])
    && (forall h :: h in e.objects <==> h in d.objects && exists n :: n in e.snapshots && Mentions(d, n, h))
    && (forall h :: h in e.objects ==> h in d.objects && e.objects[h] == d.objects[h])
  }

  lemma EndMeaning(d: Disk, policy: Policy)
    requires Ready(d, policy)
    ensures Pruned(d, policy, EndOf(d, policy))
  {
    hide PendingOk, PlanOk, ArchiveOk, Survives, Drops, Keeps, Needed, Mentions;
    assert policy.KeepLast? ==> policy.count >= 1 by { PlanPositive(d, policy); }
    SurvivorsAre(d, policy);
    var e := EndOf(d, policy);
    var m := OneSurvives(d, policy);
    assert m in e.snapshots;
    forall h ensures h in e.objects <==> h in d.objects && exists n :: n in e.snapshots && Mentions(d, n, h) {
      NeededIs(d, policy, h);
      NeededThere(d, policy, e, h);
    }
  }

  lemma NeededThere(d: Disk, policy: Policy, e: Disk, h: string)
    requires forall n :: n in e.snapshots <==> Survives(d, policy, n)
    ensures Needed(d, policy, h) <==> exists n :: n in e.snapshots && Mentions(d, n, h)
  {
    hide Mentions, Newer;
    if Needed(d, policy, h) {
      var n :| Survives(d, policy, n) && Mentions(d, n, h);
      assert n in e.snapshots;
    }
  }

  lemma NeededIs(d: Disk, policy: Policy, h: string)
    requires policy.KeepLast? ==> policy.count >= 1
    ensures h in Referenced(d, d.snapshots.Keys - Elements(Drops(d, policy))) <==> Needed(d, policy, h)
  {
    hide Survives, Drops, Keeps, RowsOf, Referenced;
    SurvivorsAre(d, policy);
    ReferencedIs(d, d.snapshots.Keys - Elements(Drops(d, policy)), h);
    var kept := d.snapshots.Keys - Elements(Drops(d, policy));
    if h in Referenced(d, kept) {
      var n :| n in kept && Mentions(d, n, h);
      assert n in d.snapshots && n !in Drops(d, policy);
    }
    if Needed(d, policy, h) {
      var n :| Survives(d, policy, n) && Mentions(d, n, h);
      assert n in kept && Mentions(d, n, h);
    }
  }

  lemma ReferencedIs(d: Disk, names: set<string>, h: string)
    requires names <= d.snapshots.Keys
    ensures h in Referenced(d, names) <==> exists n :: n in names && Mentions(d, n, h)
  {
    hide RowsOf, HasRow;
    if h in Referenced(d, names) {
      var n :| n in names && h in HashesOf(RowsOf(d, n));
      var i :| 0 <= i < |RowsOf(d, n)| && RowsOf(d, n)[i].hash == h;
      HasRowIs(d, n, RowsOf(d, n)[i]);
      assert Mentions(d, n, h);
    }
    if exists n :: n in names && Mentions(d, n, h) {
      var n :| n in names && Mentions(d, n, h);
      var row :| HasRow(d, n, row) && row.hash == h;
      HasRowIs(d, n, row);
      assert h in HashesOf(RowsOf(d, n));
    }
  }

  lemma PlanPositive(d: Disk, policy: Policy)
    requires Ready(d, policy)
    ensures policy.KeepLast? ==> policy.count >= 1
  {
  }

  lemma PrunedMeans(d: Disk, policy: Policy, e: Disk)
    requires Pruned(d, policy, e) && policy.DropSelected?
    ensures e.snapshots == d.snapshots - {policy.name}
  {
    hide Mentions;
  }

  lemma SomeLeft(d: Disk, policy: Policy, e: Disk)
    requires Pruned(d, policy, e)
    ensures e.snapshots.Keys != {}
  {
  }

  // ----- what the report says -----

  /** The report of a prune that led from `d` to `e`. */
  ghost predicate Counts(d: Disk, e: Disk, r: Report) {
    && Listing.Ascending(r.retiredSnapshots)
    && Elements(r.retiredSnapshots) == d.snapshots.Keys - e.snapshots.Keys
    && r.recoveredTransactions == |d.retired.Keys|
    && r.deletedObjects == |d.objects.Keys - e.objects.Keys|
    && r.deletedObjectBytes == BytesOf(ObjectSizes(d.objects), d.objects.Keys - e.objects.Keys)
    && (d.retired == map[] ==>
          && r.deletedFiles == 6 * |r.retiredSnapshots|
          && r.deletedFileBytes == BytesOf(SnapshotSizes(d), d.snapshots.Keys - e.snapshots.Keys))
  }

  /** The report counts what is gone at the end. */
  lemma ReportMeaning(d: Disk, policy: Policy, tx: string)
    requires Ready(d, policy) && (Drops(d, policy) == [] || tx !in d.retired)
    ensures Counts(d, EndOf(d, policy), ReportOf(d, policy, tx))
  {
    hide Ready, Drops, Moved, Protected, Referenced, BytesOf, ObjectSizes, SnapshotSizes, TxCounts, FinishBytes,
      Listing.Of, Listing.Less, SumBytes;
    ProtectedIs(d, policy, tx);
    DropsPresent(d, policy);
    DropsAscending(d, policy);
    var drops, kept := Drops(d, policy), Referenced(d, d.snapshots.Keys - Elements(Drops(d, policy)));
    EndKeys(d, policy);
    if d.retired == map[] {
      FinishBytesAre(d, policy, tx);
      SumOfListing(SnapshotSizes(d), drops);
      FilesDeleted(d, policy, tx);
    }
  }

  /** With no earlier transaction pending, six files of each dropped snapshot are deleted. */
  lemma FilesDeleted(d: Disk, policy: Policy, tx: string)
    requires Ready(d, policy) && d.retired == map[]
    ensures SumBytes(TxCounts(Moved(d, policy, tx).retired), TxList(d, policy, tx)) == 6 * |Drops(d, policy)|
  {
    hide Ready, MoveOps, ApplyAll, Drops, Listing.Of, SumBytes, ChildCounts, Listing.Less, SizeOf;
    DropsPresent(d, policy);
    MoveEffect(d, Drops(d, policy), tx);
    DropsAscending(d, policy);
    var drops, e := Drops(d, policy), Moved(d, policy, tx);
    EmptyListing();
    if drops == [] {
      assert TxList(d, policy, tx) == [];
      SumNothing(TxCounts(e.retired));
    } else {
      assert TxList(d, policy, tx) == [tx];
      SumOne(TxCounts(e.retired), tx);
      AscendingListing(drops);
      var children := Chosen(d.snapshots, drops);
      assert children.Keys == Elements(drops);
      forall n | n in drops ensures SizeOf(ChildCounts(children), n) == 6 { SixFiles(d, policy, n, drops); }
      SumConstant(ChildCounts(children), drops, 6);
      NewCount(d, drops, tx);
    }
  }

  lemma SumOfListing(sizes: map<string, nat>, names: seq<string>)
    requires Listing.Ascending(names)
    ensures BytesOf(sizes, Elements(names)) == SumBytes(sizes, names)
  {
    AscendingListing(names);
  }

  lemma EndKeys(d: Disk, policy: Policy)
    requires Elements(Drops(d, policy)) <= d.snapshots.Keys
    ensures var e, kept := EndOf(d, policy), Referenced(d, d.snapshots.Keys - Elements(Drops(d, policy)));
      && d.snapshots.Keys - e.snapshots.Keys == Elements(Drops(d, policy))
      && d.objects.Keys - e.objects.Keys == d.objects.Keys - kept
  {
    hide Drops, Referenced;
    var e, drops := EndOf(d, policy), Elements(Drops(d, policy));
    MapMinus(d.snapshots, drops, {});
    assert d.snapshots.Keys - (d.snapshots.Keys - drops) == drops;
    assert e.objects.Keys == d.objects.Keys * Referenced(d, d.snapshots.Keys - drops);
  }

  lemma NewCount(d: Disk, drops: seq<string>, tx: string)
    requires drops != [] && Listing.Of(Elements(drops)) == drops
    requires forall n :: n in drops ==> n in d.snapshots
    ensures SizeOf(TxCounts(MovedDisk(d, drops, tx).retired), tx) ==
      SumBytes(ChildCounts(Chosen(d.snapshots, drops)), drops)
  {
    hide Listing.Of, SumBytes, ChildCounts;
    assert Chosen(d.snapshots, drops).Keys == Elements(drops);
  }

  lemma SixFiles(d: Disk, policy: Policy, n: string, drops: seq<string>)
    requires Ready(d, policy) && n in d.snapshots && n in drops
    ensures SizeOf(ChildCounts(Chosen(d.snapshots, drops)), n) == 6
  {
    hide Ready, Committed, Canonical, IndexOf;
    InOrder(d, policy, n);
    SixCommitted(d.snapshots[n]);
  }

  lemma InOrder(d: Disk, policy: Policy, n: string)
    requires Ready(d, policy) && n in d.snapshots
    ensures SnapshotOk(d, n)
  {
    hide SnapshotOk, ArchiveOk, PendingOk, Keeps, ObjectsOk, ReferencesOk, TotalsOk;
  }

  lemma SixCommitted(node: SnapshotNode)
    requires Committed(node)
    ensures node.SnapshotDir? && |node.files.Keys| == 6
  {
    hide FilesSize, ChecksumLines, FileExpected;
    assert node.files.Keys == SNAPSHOT_FILES;
  }

  lemma {:induction false} SumConstant(sizes: map<string, nat>, names: seq<string>, c: nat)
    requires forall n :: n in names ==> SizeOf(sizes, n) == c
    ensures SumBytes(sizes, names) == c * |names|
  {
    if names != [] { SumConstant(sizes, names[..|names| - 1], c); }
  }

  /** A prune that ran to its end: what is there, and what the report says. */
  lemma DoneMeaning(d: Disk, policy: Policy, tx: string)
    requires Ready(d, policy) && (Drops(d, policy) == [] || tx !in d.retired)
    ensures var e := ApplyAll(d, PruneLog(d, policy, tx));
      Pruned(d, policy, e) && Counts(d, e, ReportOf(d, policy, tx))
  {
    hide Ready, Drops, PruneLog, ApplyAll, EndOf, Counts, Pruned;
    PruneEnds(d, policy, tx);
    EndMeaning(d, policy);
    ReportMeaning(d, policy, tx);
  }

  // ----- what the plans announce -----

  /** Some index has a row for a hash. */
  ghost predicate Indexed(d: Disk, h: string) {
    exists n :: Mentions(d, n, h)
  }

  ghost function Unneeded(d: Disk, policy: Policy): set<string> {
    set h | h in d.objects && Indexed(d, h) && !Needed(d, policy, h)
  }

  ghost function Strays(d: Disk): set<string> {
    set h | h in d.objects && !Indexed(d, h)
  }

  lemma IndexedIs(d: Disk, h: string)
    ensures h in Referenced(d, d.snapshots.Keys) <==> Indexed(d, h)
  {
    hide Mentions, Referenced;
    ReferencedIs(d, d.snapshots.Keys, h);
    if Indexed(d, h) {
      var n :| Mentions(d, n, h);
      assert n in d.snapshots by { MentionedThere(d, n, h); }
    }
  }

  lemma MentionedThere(d: Disk, n: string, h: string)
    requires Mentions(d, n, h)
    ensures n in d.snapshots
  {
  }

  /** The sets of objects that a plan counts. */
  lemma PlannedSets(d: Disk, k: int)
    requires k >= 1
    ensures d.objects.Keys * RetainedHashes(d, k) == set h | h in d.objects && Needed(d, KeepLast(k), h)
    ensures DropOnlyHashes(d, k) == Unneeded(d, KeepLast(k)) && UnreferencedHashes(d) == Strays(d)
  {
    hide KeepNames, DropNames, Referenced, Needed, Indexed;
    KeptIs(d, k);
    forall h ensures h in RetainedHashes(d, k) <==> Needed(d, KeepLast(k), h) { NeededIs(d, KeepLast(k), h); }
    forall h ensures h in Referenced(d, d.snapshots.Keys) <==> Indexed(d, h) { IndexedIs(d, h); }
  }

  /** The names of a plan: all that survive, and all that do not, in ascending order. */
  lemma PlannedNames(d: Disk, k: int, deep: bool)
    requires k >= 1
    ensures var p := PlanOf(d, k, deep);
      && p.committedSnapshots == |d.snapshots.Keys|
      && Listing.Ascending(p.keep) && Listing.Ascending(p.drop)
      && (forall n :: n in p.keep <==> Survives(d, KeepLast(k), n))
      && (forall n :: n in p.drop <==> n in d.snapshots && !Survives(d, KeepLast(k), n))
      && p.dropSnapshotBytes == BytesOf(SnapshotSizes(d), Elements(p.drop))
  {
    hide KeepNames, DropNames, AuditFigures, SnapshotSizes, Survives, BytesOf, SumBytes;
    SurvivorsAre(d, KeepLast(k));
    ListsAscend(d, k);
    KeptPresent(d, k);
    SumOfListing(SnapshotSizes(d), DropNames(d, k));
  }

  /** The figures of a plan. */
  lemma PlannedFigures(d: Disk, k: int, deep: bool)
    requires k >= 1
    ensures var p, sizes := PlanOf(d, k, deep), ObjectSizes(d.objects);
      && p.retainedObjects == |set h | h in d.objects && Needed(d, KeepLast(k), h)|
      && p.dropOnlyObjects == |Unneeded(d, KeepLast(k))|
      && p.unreferencedObjects == |Strays(d)|
      && p.dropOnlyObjectBytes == BytesOf(sizes, Unneeded(d, KeepLast(k)))
      && p.unreferencedBytes == BytesOf(sizes, Strays(d))
      && p.potentialLogicalBytes == p.dropSnapshotBytes + p.dropOnlyObjectBytes + p.unreferencedBytes
      && p.hashedObjects == (if deep then |d.objects.Keys| else 0)
      && p.hashedBytes == (if deep then BytesOf(sizes, d.objects.Keys) else 0)
  {
    hide RetainedHashes, DropOnlyHashes, UnreferencedHashes, DropSnapshotBytes, BytesOf, ObjectSizes, Unneeded, Strays,
      Needed, KeepNames, DropNames;
    PlannedSets(d, k);
  }

  /** The figures of a preview: of the selected snapshot's objects some are shared with others,
      the rest are its own. */
  lemma PreviewedFigures(d: Disk, name: string, deep: bool)
    requires PreviewOk(d, name, deep)
    ensures var p, sizes := PreviewOf(d, name, deep), ObjectSizes(d.objects);
      var mine := set h | h in d.objects && Mentions(d, name, h);
      var shared := set h | h in mine && Needed(d, DropSelected(name), h);
      && p.committedSnapshots == |d.snapshots.Keys| && p.survivingSnapshots == |d.snapshots.Keys - {name}|
      && p.selectedObjects == |mine| && p.sharedObjects == |shared|
      && p.exclusiveObjects == |mine - shared| && p.exclusiveBytes == BytesOf(sizes, mine - shared)
      && p.unreferencedObjects == |Strays(d)| && p.unreferencedBytes == BytesOf(sizes, Strays(d))
      && p.selectedSnapshotBytes == SizeOf(SnapshotSizes(d), name)
      && p.potentialLogicalBytes == p.selectedSnapshotBytes + p.exclusiveBytes + p.unreferencedBytes
      && p.hashedObjects == (if deep then |d.objects.Keys| else 0)
      && p.hashedBytes == (if deep then BytesOf(sizes, d.objects.Keys) else 0)
  {
    hide RowsOf, UnreferencedHashes, DropSnapshotBytes, BytesOf, ObjectSizes, Strays, Needed, RetainedHashes,
      DropOnlyHashes, KeepNames, DropNames, SnapshotSizes, SelectedHashes, Referenced, SizeOf, ArchiveOk, SnapshotsOk,
      ObjectsOk, ReferencesOk, Mentions, Others;
    PlannedSets(d, 1);
    SelectedSets(d, name);
    OthersAre(d, name);
    var mine := set h | h in d.objects && Mentions(d, name, h);
    var shared := set h | h in mine && Needed(d, DropSelected(name), h);
    assert SelectedHashes(d, name) * Referenced(d, Others(d, name)) == shared;
    assert ExclusiveHashes(d, name) == mine - shared;
  }

  lemma OthersAre(d: Disk, name: string)
    ensures Others(d, name) == d.snapshots.Keys - {name}
  {
  }

  lemma SelectedSets(d: Disk, name: string)
    requires ReferencesOk(d) && name in d.snapshots
    ensures SelectedHashes(d, name) == set h | h in d.objects && Mentions(d, name, h)
    ensures forall h :: h in Referenced(d, Others(d, name)) <==> Needed(d, DropSelected(name), h)
  {
    hide RowsOf, ReferencesOk, Referenced, Needed, Mentions, SelectedHashes;
    SelectedStored(d, name);
    forall h ensures h in SelectedHashes(d, name) <==> Mentions(d, name, h) { SelectedIs(d, name, h); }
    forall h ensures h in Referenced(d, Others(d, name)) <==> Needed(d, DropSelected(name), h) {
      assert Elements([name]) == {name};
      NeededIs(d, DropSelected(name), h);
    }
  }

  lemma SelectedIs(d: Disk, name: string, h: string)
    requires name in d.snapshots
    ensures h in SelectedHashes(d, name) <==> Mentions(d, name, h)
  {
    hide RowsOf, HasRow;
    if h in SelectedHashes(d, name) {
      var i :| 0 <= i < |RowsOf(d, name)| && RowsOf(d, name)[i].hash == h;
      HasRowIs(d, name, RowsOf(d, name)[i]);
    }
    if Mentions(d, name, h) {
      var row :| HasRow(d, name, row) && row.hash == h;
      HasRowIs(d, name, row);
    }
  }

  // ----- every change is synced -----

  /** Whatever an operation changes in a directory is followed by a sync of it, here or in one of
      some directories that are synced later. */
  ghost predicate Synced(ops: seq<Op>, later: set<Dir>) {
    forall i, dir :: 0 <= i < |ops| && dir in Touches(ops[i]) ==> dir in later || SyncedAfter(ops, i, dir)
  }

  ghost predicate SyncedAfter(ops: seq<Op>, i: int, dir: Dir) {
    exists j :: i < j < |ops| && 0 <= j && ops[j] == Sync(dir)
  }

  lemma SyncedJoin(a: seq<Op>, b: seq<Op>, early: set<Dir>, later: set<Dir>)
    requires Synced(a, early) && Synced(b, later)
    requires forall dir :: dir in early ==> dir in later || Sync(dir) in b
    ensures Synced(a + b, later)
  {
    var ops := a + b;
    forall i, dir | 0 <= i < |ops| && dir in Touches(ops[i]) ensures dir in later || SyncedAfter(ops, i, dir) {
      if i < |a| {
        assert a[i] == ops[i];
        if SyncedAfter(a, i, dir) {
          var j :| i < j < |a| && 0 <= j && a[j] == Sync(dir);
          assert ops[j] == Sync(dir);
        } else if dir !in later {
          var j :| 0 <= j < |b| && b[j] == Sync(dir);
          assert ops[|a| + j] == Sync(dir);
        }
      } else {
        assert b[i - |a|] == ops[i];
        if SyncedAfter(b, i - |a|, dir) {
          var j :| i - |a| < j < |b| && 0 <= j && b[j] == Sync(dir);
          assert ops[|a| + j] == Sync(dir);
        }
      }
    }
  }

  lemma NothingToSync(later: set<Dir>)
    ensures Synced([], later)
  {
  }

  lemma {:induction false} RetireSynced(names: seq<string>, tx: string)
    ensures Synced(RetireOps(names, tx), {})
  {
    hide Synced;
    if names == [] {
      NothingToSync({});
    } else {
      var k := |names| - 1;
      RetireSynced(names[..k], tx);
      RenameSynced(names[k], tx);
      SyncedJoin(RetireOps(names[..k], tx), [Retire(names[k], tx), Sync(TxDir(tx)), Sync(SnapshotRoot)], {}, {});
    }
  }

  lemma RenameSynced(name: string, tx: string)
    ensures Synced([Retire(name, tx), Sync(TxDir(tx)), Sync(SnapshotRoot)], {})
  {
    var ops := [Retire(name, tx), Sync(TxDir(tx)), Sync(SnapshotRoot)];
    assert ops[1] == Sync(TxDir(tx)) && ops[2] == Sync(SnapshotRoot);
  }

  lemma MoveSynced(drops: seq<string>, tx: string)
    ensures Synced(MoveOps(drops, tx), {})
  {
    hide Synced;
    NothingToSync({});
    if drops != [] {
      CreateSynced(tx);
      RetireSynced(drops, tx);
      SyncedJoin(CreateOps(tx), RetireOps(drops, tx), {}, {});
    }
  }

  lemma CreateSynced(tx: string)
    ensures Synced(CreateOps(tx), {})
  {
    var ops := CreateOps(tx);
    assert ops[1] == Sync(RepoRoot) && ops[4] == Sync(TxDir(tx)) && ops[5] == Sync(RetiredRoot);
  }

  lemma {:induction false} UnlinkSynced(hashes: seq<string>, bucket: string)
    requires forall h :: h in hashes ==> BucketName(h) == bucket
    ensures Synced(UnlinkEach(hashes), {Bucket(bucket)})
  {
    hide BucketName;
    if hashes != [] {
      var k := |hashes| - 1;
      UnlinkSynced(hashes[..k], bucket);
      assert hashes[k] in hashes;
      SyncedJoin(UnlinkEach(hashes[..k]), [Unlink(hashes[k])], {Bucket(bucket)}, {Bucket(bucket)});
    }
  }

  lemma BucketSynced(objects: set<string>, protected: set<string>, bucket: string)
    ensures Synced(BucketOps(objects, protected, bucket), {})
  {
    hide Synced, Listing.Of, BucketName;
    var doomed := Listing.Of(InBucket(objects, bucket) - protected);
    UnlinkSynced(doomed, bucket);
    if doomed == [] {
      NothingToSync({});
      assert UnlinkEach(doomed) + [] == [];
    } else {
      OnlySync(Bucket(bucket));
      SyncedJoin(UnlinkEach(doomed), [Sync(Bucket(bucket))], {Bucket(bucket)}, {});
    }
  }

  lemma OnlySync(dir: Dir)
    ensures Synced([Sync(dir)], {})
  {
  }

  lemma {:induction false} SweepSynced(objects: set<string>, protected: set<string>, buckets: seq<string>)
    ensures Synced(SweepOps(objects, protected, buckets), {})
  {
    hide Synced, BucketOps;
    if buckets == [] {
      NothingToSync({});
    } else {
      var k := |buckets| - 1;
      SweepSynced(objects, protected, buckets[..k]);
      BucketSynced(objects, protected, buckets[k]);
      SyncedJoin(SweepOps(objects, protected, buckets[..k]), BucketOps(objects, protected, buckets[k]), {}, {});
    }
  }

  lemma {:induction false} FilesSynced(tx: string, name: string, files: seq<string>)
    ensures Synced(DropFileOps(tx, name, files), {Child(tx, name)})
  {
    if files != [] {
      var k := |files| - 1;
      FilesSynced(tx, name, files[..k]);
      var dirs := {Child(tx, name)};
      SyncedJoin(DropFileOps(tx, name, files[..k]), [DropFile(tx, name, files[k])], dirs, dirs);
    }
  }

  lemma ChildSynced(tx: string, name: string, node: SnapshotNode)
    ensures Synced(ChildOps(tx, name, node), {TxDir(tx)})
  {
    hide Synced, Listing.Of, DropFileOps;
    var files := if node.SnapshotDir? then DropFileOps(tx, name, Listing.Of(node.files.Keys)) else [];
    if node.SnapshotDir? {
      FilesSynced(tx, name, Listing.Of(node.files.Keys));
    } else {
      NothingToSync({Child(tx, name)});
    }
    DirectorySynced(tx, name);
    SyncedJoin(files, [Sync(Child(tx, name)), DropChild(tx, name)], {Child(tx, name)}, {TxDir(tx)});
  }

  lemma DirectorySynced(tx: string, name: string)
    ensures Synced([Sync(Child(tx, name)), DropChild(tx, name)], {TxDir(tx)})
  {
  }

  lemma {:induction false} ChildrenSynced(tx: string, children: map<string, SnapshotNode>, names: seq<string>)
    ensures Synced(ChildrenOps(tx, children, names), {TxDir(tx)})
  {
    hide Synced, ChildOps;
    NothingToSync({TxDir(tx)});
    if names != [] {
      var k := |names| - 1;
      ChildrenSynced(tx, children, names[..k]);
      var last := if names[k] in children then ChildOps(tx, names[k], children[names[k]]) else [];
      if names[k] in children { ChildSynced(tx, names[k], children[names[k]]); }
      SyncedJoin(ChildrenOps(tx, children, names[..k]), last, {TxDir(tx)}, {TxDir(tx)});
    }
  }

  lemma FinishSynced(tx: string, node: Transaction)
    ensures Synced(FinishOps(tx, node), {})
  {
    hide Synced, ChildrenOps, Listing.Of;
    NothingToSync({});
    if node.Transaction? {
      var names := Listing.Of(node.children.Keys);
      ChildrenSynced(tx, node.children, names);
      TailSynced(tx, node.marker.Some?);
      var tail := (if node.marker.Some? then [DropMarker(tx)] else [])
        + [Sync(TxDir(tx)), DropTx(tx), Sync(RetiredRoot)];
      SyncedJoin(ChildrenOps(tx, node.children, names), tail, {TxDir(tx)}, {});
      assert FinishOps(tx, node) == ChildrenOps(tx, node.children, names) + tail;
    }
  }

  lemma TailSynced(tx: string, marked: bool)
    ensures var tail := (if marked then [DropMarker(tx)] else []) + [Sync(TxDir(tx)), DropTx(tx), Sync(RetiredRoot)];
      Synced(tail, {}) && Sync(TxDir(tx)) in tail
  {
    var k, tail := if marked then 1 else 0,
      (if marked then [DropMarker(tx)] else []) + [Sync(TxDir(tx)), DropTx(tx), Sync(RetiredRoot)];
    assert tail[k] == Sync(TxDir(tx)) && tail[k + 2] == Sync(RetiredRoot);
  }

  lemma {:induction false} FinishAllSynced(retired: map<string, Transaction>, txs: seq<string>)
    ensures Synced(FinishAllOps(retired, txs), {})
  {
    hide Synced, FinishOps;
    NothingToSync({});
    if txs != [] {
      var k := |txs| - 1;
      FinishAllSynced(retired, txs[..k]);
      var last := if txs[k] in retired then FinishOps(txs[k], retired[txs[k]]) else [];
      if txs[k] in retired { FinishSynced(txs[k], retired[txs[k]]); }
      SyncedJoin(FinishAllOps(retired, txs[..k]), last, {}, {});
    }
  }

  /** A prune leaves nothing to the cache: every directory it changes is synced after the change,
      both directories of a rename. */
  lemma LogIsSynced(d: Disk, policy: Policy, tx: string)
    ensures forall i, dir :: 0 <= i < |PruneLog(d, policy, tx)| && dir in Touches(PruneLog(d, policy, tx)[i]) ==>
      SyncedAfter(PruneLog(d, policy, tx), i, dir)
  {
    hide MoveOps, SweepOps, FinishAllOps, Moved, Drops, Protected, TxList, Listing.Of, Touches;
    var a := MoveOps(Drops(d, policy), tx);
    var b := SweepOps(d.objects.Keys, Protected(Moved(d, policy, tx)), Listing.Of(Buckets(d.objects.Keys)));
    var c := FinishAllOps(Moved(d, policy, tx).retired, TxList(d, policy, tx));
    MoveSynced(Drops(d, policy), tx);
    SweepSynced(d.objects.Keys, Protected(Moved(d, policy, tx)), Listing.Of(Buckets(d.objects.Keys)));
    FinishAllSynced(Moved(d, policy, tx).retired, TxList(d, policy, tx));
    SyncedJoin(a, b, {}, {});
    SyncedJoin(a + b, c, {}, {});
    assert PruneLog(d, policy, tx) == a + b + c;
  }
}
