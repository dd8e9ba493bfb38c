/** What a prune checks before it changes anything, and the exact sequence of file
    operations it then performs. */
module PruneSpec {
  import opened Wrappers
  import opened Content
  import opened SnapshotNames
  import opened Repository
  import opened RetentionPlan
  import opened Journal
  import Listing
  import LegacyArchive
  import Sums

  // ----- preflight -----

  predicate HexDigit(c: char) {
    '0' <= c <= '9' || 'a' <= c <= 'f' || 'A' <= c <= 'F'
  }

  /** `tx-` and 32 hexadecimal digits. */
  predicate TxNameOk(tx: string) {
    |tx| == 35 && tx[..3] == "tx-" && forall i :: 3 <= i < 35 ==> HexDigit(tx[i])
  }

  /** A retired snapshot may have lost files, but holds nothing unexpected. */
  predicate RetiredChildOk(node: SnapshotNode) {
    node.SnapshotDir? && forall f :: f in node.files ==> FileExpected(node.files, SNAPSHOT_FILES, f)
  }

  predicate ChildrenOk(children: map<string, SnapshotNode>) {
    forall c :: c in children ==> Canonical(c) && RetiredChildOk(children[c])
  }

  /** A transaction directory as the journal check accepts it: an intact marker, or nothing at all. */
  predicate TransactionOk(node: Transaction) {
    && node.Transaction?
    && ChildrenOk(node.children)
    && (node.marker == None ==> node.children == map[])
    && (node.marker.Some? ==> node.marker.value == RegularFile(Lines(MARKER)))
  }

  predicate PendingOk(d: Disk) {
    forall tx :: tx in d.retired ==> TxNameOk(tx) && TransactionOk(d.retired[tx])
  }

  /** What the journal check accepts, entry by entry: a name of `tx-` and 32 hexadecimal digits; in
      the directory nothing at all, or the marker beside snapshots under canonical names, that hold
      only regular files of the six names. */
  ghost predicate JournalEntry(tx: string, node: Transaction) {
    && |tx| == 35 && tx[..3] == "tx-"
    && (forall i :: 3 <= i < 35 ==>
          '0' <= tx[i] <= '9' || 'a' <= tx[i] <= 'f' || 'A' <= tx[i] <= 'F')
    && node.Transaction?
    && (node.marker == None ==> node.children == map[])
    && (node.marker.Some? ==> node.marker == Some(RegularFile(Lines("xdrive-prune-transaction-v1"))))
    && forall c :: c in node.children ==>
         && Canonical(c) && node.children[c].SnapshotDir?
         && forall f :: f in node.children[c].files ==>
              && node.children[c].files[f].RegularFile?
              && f in {"database.dump", "verify.json", "manifest.json", "objects.index", "legacy.tar",
                       "SHA256SUMS.txt"}
  }

  lemma JournalEntryIs(tx: string, node: Transaction)
    ensures TxNameOk(tx) && TransactionOk(node) <==> JournalEntry(tx, node)
  {
    hide Canonical;
    if JournalEntry(tx, node) {
      forall i | 3 <= i < 35 ensures HexDigit(tx[i]) {}
    }
    if TxNameOk(tx) {
      forall i | 3 <= i < 35 ensures '0' <= tx[i] <= '9' || 'a' <= tx[i] <= 'f' || 'A' <= tx[i] <= 'F' {
        assert HexDigit(tx[i]);
      }
    }
    if node.Transaction? {
      forall c | c in node.children && node.children[c].SnapshotDir?
        ensures RetiredChildOk(node.children[c]) <==>
          forall f :: f in node.children[c].files ==>
            && node.children[c].files[f].RegularFile?
            && f in {"database.dump", "verify.json", "manifest.json", "objects.index", "legacy.tar", "SHA256SUMS.txt"}
      {
        assert forall f :: f in node.children[c].files ==>
          (FileExpected(node.children[c].files, SNAPSHOT_FILES, f) <==>
            node.children[c].files[f].RegularFile? && f in SNAPSHOT_FILES);
      }
    }
  }

  /** The journal check, one retired transaction after another. */
  method PendingTransactions(d: Disk) returns (r: Option<seq<string>>)
    ensures r.Some? <==> PendingOk(d)
    ensures r.Some? ==> r.value == Listing.Of(d.retired.Keys)
    ensures r.Some? <==> forall tx :: tx in d.retired ==> JournalEntry(tx, d.retired[tx])
  {
    hide TransactionOk, TxNameOk, JournalEntry;
    forall tx | tx in d.retired
      ensures TxNameOk(tx) && TransactionOk(d.retired[tx]) <==> JournalEntry(tx, d.retired[tx])
    {
      JournalEntryIs(tx, d.retired[tx]);
    }
    var names := Listing.Of(d.retired.Keys);
    for i := 0 to |names|
      invariant forall j :: 0 <= j < i ==> TxNameOk(names[j]) && TransactionOk(d.retired[names[j]])
    {
      assert names[i] in names;
      if !TxNameOk(names[i]) || !TransactionOk(d.retired[names[i]]) {
        return None;
      }
    }
    forall tx | tx in d.retired ensures TxNameOk(tx) && TransactionOk(d.retired[tx]) {
      assert tx in names;
    }
    r := Some(names);
  }

  /** The archive of a snapshot is one that restore can expand. */
  ghost predicate ArchiveOk(d: Disk, name: string) {
    && name in d.snapshots && d.snapshots[name].SnapshotDir?
    && "legacy.tar" in d.snapshots[name].files && d.snapshots[name].files["legacy.tar"].RegularFile?
    && var body := d.snapshots[name].files["legacy.tar"].body;
       body.Tar? && body.sound && LegacyArchive.Acceptable(body.entries)
  }

  /** The archive of a snapshot is an intact one of these members, and they can be extracted. */
  ghost predicate Expands(d: Disk, name: string, entries: seq<TarEntry>) {
    && name in d.snapshots && d.snapshots[name].SnapshotDir? && "legacy.tar" in d.snapshots[name].files
    && d.snapshots[name].files["legacy.tar"] == RegularFile(Tar(entries, true))
    && LegacyArchive.Acceptable(entries)
  }

  lemma ArchiveMeaning(d: Disk, name: string)
    ensures ArchiveOk(d, name) <==> exists entries :: Expands(d, name, entries)
  {
    hide LegacyArchive.Acceptable;
    if ArchiveOk(d, name) { assert Expands(d, name, d.snapshots[name].files["legacy.tar"].body.entries); }
  }

  method ValidateArchive(d: Disk, name: string) returns (ok: bool)
    ensures ok <==> ArchiveOk(d, name)
    ensures ok <==> exists entries :: Expands(d, name, entries)
  {
    ArchiveMeaning(d, name);
    if name !in d.snapshots || !d.snapshots[name].SnapshotDir? || "legacy.tar" !in d.snapshots[name].files {
      return false;
    }
    var file := d.snapshots[name].files["legacy.tar"];
    if !file.RegularFile? || !file.body.Tar? {
      return false;
    }
    ok := LegacyArchive.WalkLegacyArchive(file.body.entries, file.body.sound);
  }

  method ValidateRetainedArchives(d: Disk, names: seq<string>) returns (ok: bool)
    ensures ok <==> forall n :: n in names ==> Canonical(n) && ArchiveOk(d, n)
  {
    hide ArchiveOk, Canonical;
    for i := 0 to |names|
      invariant forall j :: 0 <= j < i ==> Canonical(names[j]) && ArchiveOk(d, names[j])
    {
      var accepted := ValidateArchive(d, names[i]);
      if !accepted || !Canonical(names[i]) {
        assert names[i] in names;
        return false;
      }
    }
    ok := true;
  }

  /** Keep the newest `count`, or drop exactly one named snapshot. */
  datatype Policy = KeepLast(count: int) | DropSelected(name: string)

  function Without(names: seq<string>, name: string): seq<string> {
    if names == [] then []
    else
      var last := names[|names| - 1];
      Without(names[..|names| - 1], name) + (if last == name then [] else [last])
  }

  function Keeps(d: Disk, policy: Policy): seq<string> {
    match policy
    case KeepLast(count) => KeepNames(d, count)
    case DropSelected(name) => Without(SnapshotListing(d), name)
  }

  function Drops(d: Disk, policy: Policy): seq<string> {
    match policy
    case KeepLast(count) => DropNames(d, count)
    case DropSelected(name) => [name]
  }

  /** The preflight plan of a selected deletion is the one that keeps a single snapshot. */
  function PlanKeep(policy: Policy): int {
    match policy
    case KeepLast(count) => count
    case DropSelected(_) => 1
  }

  /** Everything a prune demands before its first change. */
  ghost predicate Ready(d: Disk, policy: Policy) {
    && PendingOk(d)
    && PlanOk(d, PlanKeep(policy), true)
    && (policy.DropSelected? ==> policy.name in d.snapshots)
    && Keeps(d, policy) != []
    && forall n :: n in Keeps(d, policy) ==> ArchiveOk(d, n)
  }

  // ----- the operations -----

  function CreateOps(tx: string): seq<Op> {
    [MakeRoot, Sync(RepoRoot), MakeTx(tx), PutMarker(tx), Sync(TxDir(tx)), Sync(RetiredRoot)]
  }

  function RetireOps(names: seq<string>, tx: string): seq<Op> {
    if names == [] then []
    else RetireOps(names[..|names| - 1], tx) + [Retire(names[|names| - 1], tx), Sync(TxDir(tx)), Sync(SnapshotRoot)]
  }

  function MoveOps(drops: seq<string>, tx: string): seq<Op> {
    if drops == [] then [] else CreateOps(tx) + RetireOps(drops, tx)
  }

  function Buckets(objects: set<string>): set<string> {
    set h | h in objects :: BucketName(h)
  }

  function InBucket(objects: set<string>, bucket: string): set<string> {
    set h | h in objects && BucketName(h) == bucket
  }

  function UnlinkEach(hashes: seq<string>): seq<Op> {
    if hashes == [] then [] else UnlinkEach(hashes[..|hashes| - 1]) + [Unlink(hashes[|hashes| - 1])]
  }

  /** One bucket: unlink its unprotected objects in order, and sync it if there were any. */
  function BucketOps(objects: set<string>, protected: set<string>, bucket: string): seq<Op> {
    var doomed := Listing.Of(InBucket(objects, bucket) - protected);
    UnlinkEach(doomed) + if doomed == [] then [] else [Sync(Bucket(bucket))]
  }

  function SweepOps(objects: set<string>, protected: set<string>, buckets: seq<string>): seq<Op> {
    if buckets == [] then []
    else SweepOps(objects, protected, buckets[..|buckets| - 1]) + BucketOps(objects, protected, buckets[|buckets| - 1])
  }

  function DropFileOps(tx: string, name: string, files: seq<string>): seq<Op> {
    if files == [] then [] else DropFileOps(tx, name, files[..|files| - 1]) + [DropFile(tx, name, files[|files| - 1])]
  }

  function ChildOps(tx: string, name: string, node: SnapshotNode): seq<Op> {
    (if node.SnapshotDir? then DropFileOps(tx, name, Listing.Of(node.files.Keys)) else [])
      + [Sync(Child(tx, name)), DropChild(tx, name)]
  }

  function ChildrenOps(tx: string, children: map<string, SnapshotNode>, names: seq<string>): seq<Op> {
    if names == [] then []
    else
      var last := names[|names| - 1];
      ChildrenOps(tx, children, names[..|names| - 1])
        + (if last in children then ChildOps(tx, last, children[last]) else [])
  }

  function FinishOps(tx: string, node: Transaction): seq<Op> {
    if !node.Transaction? then []
    else
      ChildrenOps(tx, node.children, Listing.Of(node.children.Keys))
        + (if node.marker.Some? then [DropMarker(tx)] else []) + [Sync(TxDir(tx)), DropTx(tx), Sync(RetiredRoot)]
  }

  function FinishAllOps(retired: map<string, Transaction>, txs: seq<string>): seq<Op> {
    if txs == [] then []
    else
      var last := txs[|txs| - 1];
      FinishAllOps(retired, txs[..|txs| - 1]) + if last in retired then FinishOps(last, retired[last]) else []
  }

  function Moved(d: Disk, policy: Policy, tx: string): Disk {
    ApplyAll(d, MoveOps(Drops(d, policy), tx))
  }

  /** The hashes that survive: those the indexes left under `snapshots/` mention. */
  function Protected(d: Disk): set<string> {
    Referenced(d, d.snapshots.Keys)
  }

  function TxList(d: Disk, policy: Policy, tx: string): seq<string> {
    Listing.Of(d.retired.Keys) + if Drops(d, policy) == [] then [] else [tx]
  }

  /** Every file operation of a prune, in order. */
  function PruneLog(d: Disk, policy: Policy, tx: string): seq<Op> {
    MoveOps(Drops(d, policy), tx)
      + SweepOps(d.objects.Keys, Protected(Moved(d, policy, tx)), Listing.Of(Buckets(d.objects.Keys)))
      + FinishAllOps(Moved(d, policy, tx).retired, TxList(d, policy, tx))
  }

  // ----- what the report counts -----

  function ChildSizes(children: map<string, SnapshotNode>): map<string, nat> {
    map c | c in children :: if children[c].SnapshotDir? then FilesSize(children[c].files) else 0
  }

  function ChildCounts(children: map<string, SnapshotNode>): map<string, nat> {
    map c | c in children :: if children[c].SnapshotDir? then |children[c].files.Keys| else 0
  }

  function TxSizes(retired: map<string, Transaction>): map<string, nat> {
    map t | t in retired ::
      if retired[t].Transaction?
      then SumBytes(ChildSizes(retired[t].children), Listing.Of(retired[t].children.Keys)) else 0
  }

  function TxCounts(retired: map<string, Transaction>): map<string, nat> {
    map t | t in retired ::
      if retired[t].Transaction?
      then SumBytes(ChildCounts(retired[t].children), Listing.Of(retired[t].children.Keys)) else 0
  }

  datatype Report = Report(
    retiredSnapshots: seq<string>, recoveredTransactions: nat,
    deletedObjects: nat, deletedObjectBytes: int, deletedFiles: nat, deletedFileBytes: int)

  function FinishBytes(d: Disk, policy: Policy, tx: string): nat {
    SumBytes(TxSizes(Moved(d, policy, tx).retired), TxList(d, policy, tx))
  }

  function ReportOf(d: Disk, policy: Policy, tx: string): Report {
    var moved := Moved(d, policy, tx);
    var doomed := d.objects.Keys - Protected(moved);
    Report(Drops(d, policy), |d.retired.Keys|, |doomed|, Sums.BytesOf(ObjectSizes(d.objects), doomed),
      SumBytes(TxCounts(moved.retired), TxList(d, policy, tx)), FinishBytes(d, policy, tx))
  }
}
