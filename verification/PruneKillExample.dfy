/** A concrete repository on which killing a prune and running it again loses an object. */
module PruneKillExample {
  import opened Content
  import opened SnapshotNames
  import opened Repository
  import opened RetentionPlan
  import opened Sums
  import opened PruneSpec
  import opened PruneCrash
  import opened Power
  import opened PowerPrune
  import opened PruneKill
  import Listing
  import ObjectIndex
  import Manifest
  import LegacyArchive

  // ----- a repository of two snapshots, the older with an object of its own -----

  function OnDay(digit: char): string {
    PREFIX + (DATE + [digit] + CLOCK)
  }

  const DATE := "2024010"
  const CLOCK := "T000000Z"

  function Older(): string {
    OnDay('1')
  }

  function Newer(): string {
    OnDay('2')
  }

  function Tx(digit: char): string {
    "tx-" + seq(32, _ => digit)
  }

  const CONTENT: Bytes := [0]

  function OwnRow(): Row {
    ObjectIndex.Row(ObjectName(CONTENT), 1)
  }

  function ManifestMembers(): Manifest.Members {
    Manifest.Member("format_version", Manifest.Leaf(Number("2")),
      Manifest.Member("consistency_verified", Manifest.Leaf(Bool(true)),
        Manifest.Member("file_data_included", Manifest.Leaf(Bool(true)), Manifest.NoMembers)))
  }

  function ManifestBody(): Body {
    Json(100, Manifest.Tokens(Manifest.Object(ManifestMembers())))
  }

  function PlainFiles(rows: seq<Row>): map<string, FileNode> {
    map["database.dump" := RegularFile(Raw([])),
        "verify.json" := RegularFile(Raw([])),
        "manifest.json" := RegularFile(ManifestBody()),
        "objects.index" := RegularFile(Lines(ObjectIndex.Write(rows))),
        "legacy.tar" := RegularFile(Tar([], true))]
  }

  function Published(rows: seq<Row>): SnapshotNode {
    SnapshotDir(PlainFiles(rows)[CHECKSUMS := RegularFile(Lines(ChecksumLines(PlainFiles(rows), COMMITTED_FILES)))])
  }

  function TwoSnapshots(): Disk {
    Disk(map[Older() := Published([OwnRow()]), Newer() := Published([])],
      map[ObjectName(CONTENT) := ObjectFile(CONTENT)], false, map[])
  }

  lemma ManifestShape()
    ensures var d := Manifest.Object(ManifestMembers());
      Manifest.WellFormed(d) && Manifest.UniqueKeys(d) && Manifest.Height(d) <= 1
  {
    var last := Manifest.Member("file_data_included", Manifest.Leaf(Bool(true)), Manifest.NoMembers);
    var more := Manifest.Member("consistency_verified", Manifest.Leaf(Bool(true)), last);
    assert Manifest.Keys(last) == {"file_data_included"} && Manifest.MembersHeight(last) == 1;
    assert Manifest.UniqueMembers(last) && Manifest.MembersWellFormed(last);
    assert Manifest.Keys(more) == {"consistency_verified", "file_data_included"} && Manifest.MembersHeight(more) == 1;
    assert Manifest.UniqueMembers(more) && Manifest.MembersWellFormed(more);
  }

  lemma ManifestFields()
    ensures Manifest.ManifestDoc(Manifest.Object(ManifestMembers()), Manifest.LastWins)
  {
    var last := Manifest.Member("file_data_included", Manifest.Leaf(Bool(true)), Manifest.NoMembers);
    var more := Manifest.Member("consistency_verified", Manifest.Leaf(Bool(true)), last);
    var a := map["format_version" := Manifest.Scalar(Number("2"))];
    var b := a["consistency_verified" := Manifest.Scalar(Bool(true))];
    assert Manifest.LenientFields(ManifestMembers(), Manifest.LastWins, map[]) ==
      Manifest.LenientFields(more, Manifest.LastWins, a);
    assert Manifest.LenientFields(more, Manifest.LastWins, a) == Manifest.LenientFields(last, Manifest.LastWins, b);
  }

  lemma ManifestAccepted()
    ensures Manifest.ManifestOk(ManifestBody())
  {
    hide Manifest.WellFormed, Manifest.UniqueKeys, Manifest.Height, Manifest.Lenient, Manifest.ParseValue,
      Manifest.Tokens, ManifestMembers;
    var doc := Manifest.Object(ManifestMembers());
    ManifestShape();
    ManifestFields();
    Manifest.ReadsDocument(doc, 0, [], Manifest.LastWins);
    assert Manifest.Tokens(doc) + [] == Manifest.Tokens(doc);
  }

  lemma {:induction false} ChecksumsUnread(files: map<string, FileNode>, node: FileNode, names: seq<string>)
    requires CHECKSUMS !in names
    ensures ChecksumLines(files[CHECKSUMS := node], names) == ChecksumLines(files, names)
  {
    if names != [] { ChecksumsUnread(files, node, names[..|names| - 1]); }
  }

  lemma {:induction false} ChecksumsLength(files: map<string, FileNode>, names: seq<string>)
    requires forall n :: n in names ==> |n| <= 20
    ensures |ChecksumLines(files, names)| <= 87 * |names|
  {
    if names != [] {
      var last := names[|names| - 1];
      ChecksumsLength(files, names[..|names| - 1]);
      assert last in names;
      if last in files && files[last].RegularFile? { assert ShaValid(Sha256(files[last].body)); }
    }
  }

  lemma {:induction false} SumBounded(sizes: map<string, nat>, names: seq<string>, bound: nat)
    requires forall n :: n in names ==> SizeOf(sizes, n) <= bound
    ensures SumBytes(sizes, names) <= |names| * bound
  {
    if names != [] {
      SumBounded(sizes, names[..|names| - 1], bound);
      assert names[|names| - 1] in names;
    }
  }

  lemma IndexReads(rows: seq<Row>)
    requires rows == [] || rows == [OwnRow()]
    ensures ObjectIndex.Read(ObjectIndex.Write(rows)) == ObjectIndex.Reading(rows, true)
    ensures |ObjectIndex.Write(rows)| <= 100
  {
    ObjectIndex.RoundTrip(rows);
    if rows != [] {
      assert ObjectIndex.Write(rows) == ObjectIndex.WriteRow(rows[0]) + ObjectIndex.Write(rows[1..]);
      assert ObjectIndex.Write([]) == "";
      ObjectIndex.DecimalLength(1, 1);
    }
  }

  lemma BodySizes()
    ensures ManifestBody().Size() == 100 && Tar([], true).Size() == 1024
  {
  }

  lemma PlainSizes(rows: seq<Row>)
    requires rows == [] || rows == [OwnRow()]
    ensures forall f :: f in PlainFiles(rows) ==>
      PlainFiles(rows)[f].RegularFile? && PlainFiles(rows)[f].body.Size() <= 4096
  {
    hide ManifestBody, ObjectIndex.Write, Body.Size;
    BodySizes();
    IndexReads(rows);
    assert Raw([]).Size() == 0 by { TextSize(""); }
    TextSize(ObjectIndex.Write(rows));
  }

  lemma TextSize(text: string)
    ensures Lines(text).Size() == |text| && Raw([]).Size() == 0
  {
  }

  /** The files of a published snapshot are small, and its checksum text is the one demanded. */
  lemma PublishedFiles(rows: seq<Row>)
    requires rows == [] || rows == [OwnRow()]
    ensures var files := Published(rows).files;
      && files.Keys == SNAPSHOT_FILES
      && (forall f :: f in files ==> FileExpected(files, SNAPSHOT_FILES, f) && files[f].body.Size() <= 4096)
      && files[CHECKSUMS].body == Lines(ChecksumLines(files, COMMITTED_FILES))
  {
    hide ChecksumLines, ManifestBody, ObjectIndex.Write, Body.Size;
    var plain := PlainFiles(rows);
    var text := ChecksumLines(plain, COMMITTED_FILES);
    ChecksumsUnread(plain, RegularFile(Lines(text)), COMMITTED_FILES);
    ChecksumsLength(plain, COMMITTED_FILES);
    TextSize(text);
    PlainSizes(rows);
  }

  lemma SmallFiles(files: map<string, FileNode>)
    requires files.Keys == SNAPSHOT_FILES
    requires forall f :: f in files ==> files[f].RegularFile? && files[f].body.Size() <= 4096
    ensures FilesSize(files) <= 6 * 4096
  {
    hide SumBytes, Listing.Of, Body.Size;
    SumBounded(FileSizes(files), Listing.Of(files.Keys), 4096);
  }

  lemma PublishedCommitted(rows: seq<Row>)
    requires rows == [] || rows == [OwnRow()]
    ensures Committed(Published(rows)) && FilesSize(Published(rows).files) <= 6 * 4096
  {
    hide ChecksumLines, ManifestBody, ObjectIndex.Write, FilesSize, Body.Size, ChecksumLines, Manifest.ManifestOk;
    PublishedFiles(rows);
    SmallFiles(Published(rows).files);
    ManifestAccepted();
    assert Published(rows).files["manifest.json"].body == ManifestBody();
  }

  lemma PublishedIndex(rows: seq<Row>)
    requires rows == [] || rows == [OwnRow()]
    ensures IndexOf(Published(rows)) == ObjectIndex.Reading(rows, true)
  {
    hide ChecksumLines, ManifestBody, ObjectIndex.Write, ObjectIndex.Read;
    IndexReads(rows);
    assert Published(rows).files["objects.index"].body == Lines(ObjectIndex.Write(rows));
  }

  // ----- it is in order -----

  lemma NamesInOrder()
    ensures Canonical(Older()) && Canonical(Newer()) && Older() != Newer() && Listing.Less(Older(), Newer())
  {
    hide Canonical, Listing.Less, OnDay;
    CanonicalName('1');
    CanonicalName('2');
    DaysApart('1', '2');
  }

  lemma DaysApart(a: char, b: char)
    requires a < b
    ensures Listing.Less(OnDay(a), OnDay(b)) && OnDay(a) != OnDay(b)
  {
    var head := PREFIX + DATE;
    Behind(head, [a] + CLOCK, [b] + CLOCK);
    assert OnDay(a) == head + ([a] + CLOCK) && OnDay(b) == head + ([b] + CLOCK);
    assert OnDay(a)[|head|] == a && OnDay(b)[|head|] == b;
  }

  lemma Behind(head: string, a: string, b: string)
    requires a != [] && b != [] && a[0] < b[0]
    ensures Listing.Less(head + a, head + b)
  {
    LessSplit(head + a, head + b, |head|);
    Listing.LessTotal(head, head);
    assert (head + a)[..|head|] == head == (head + b)[..|head|];
    assert (head + a)[|head|..] == a && (head + b)[|head|..] == b;
  }

  lemma TwoDigits(s: string)
    requires |s| == 2 && Digits(s)
    ensures Value(s) == (s[0] as int - '0' as int) * 10 + (s[1] as int - '0' as int)
  {
    assert s[..1] == [s[0]] && s[..1][..0] == [];
    assert Value(s[..1]) == s[0] as int - '0' as int;
  }

  lemma StampValid(s: string, day: char)
    requires '1' <= day <= '9' && HasLayout(s)
    requires s[4] == '0' && s[5] == '1' && s[6] == '0' && s[7] == day
    requires forall i :: 9 <= i < 15 ==> s[i] == '0'
    ensures ReadStamp(s).Valid()
  {
    TwoDigits(s[4..6]);
    TwoDigits(s[6..8]);
    TwoDigits(s[9..11]);
    TwoDigits(s[11..13]);
    TwoDigits(s[13..15]);
  }

  lemma CanonicalName(day: char)
    requires '1' <= day <= '9'
    ensures Canonical(OnDay(day))
  {
    hide Stamp.Valid, ReadStamp;
    var s := DATE + [day] + CLOCK;
    assert OnDay(day)[..|PREFIX|] == PREFIX && OnDay(day)[|PREFIX|..] == s;
    assert s[4] == '0' && s[5] == '1' && s[6] == '0' && s[7] == day && s[8] == 'T';
    StampValid(s, day);
  }

  lemma TwoNames()
    ensures SnapshotListing(TwoSnapshots()) == [Older(), Newer()]
    ensures KeepNames(TwoSnapshots(), 1) == [Newer()] && DropNames(TwoSnapshots(), 1) == [Older()]
  {
    hide Published, Listing.Less, Older, Newer, Canonical;
    NamesInOrder();
    Listing.LessTotal(Older(), Newer());
    Listing.OfAscending({Older(), Newer()});
    Listing.AscendingUnique(Listing.Of({Older(), Newer()}), [Older(), Newer()]);
    assert TwoSnapshots().snapshots.Keys == {Older(), Newer()};
  }

  lemma TwoRows()
    ensures Older() != Newer() && RowsOf(TwoSnapshots(), Older()) == [OwnRow()] && RowsOf(TwoSnapshots(), Newer()) == []
    ensures IndexOf(TwoSnapshots().snapshots[Older()]).ok && IndexOf(TwoSnapshots().snapshots[Newer()]).ok
    ensures RetainedHashes(TwoSnapshots(), 1) == {}
  {
    hide Published, IndexOf, KeepNames, Older, Newer, Canonical;
    PublishedIndex([OwnRow()]);
    PublishedIndex([]);
    TwoNames();
    NamesInOrder();
    assert Elements([Newer()]) == {Newer()};
    assert HashesOf([]) == {};
  }

  lemma FewBytes(s: set<string>)
    requires s <= TwoSnapshots().objects.Keys
    ensures BytesOf(ObjectSizes(TwoSnapshots().objects), s) <= 1
  {
    hide Published, SumBytes, Listing.Of, Older, Newer;
    SumBounded(ObjectSizes(TwoSnapshots().objects), Listing.Of(s), 1);
    if s != {} { assert s == {ObjectName(CONTENT)}; }
  }

  lemma FewFileBytes()
    ensures DropSnapshotBytes(TwoSnapshots(), 1) <= 6 * 4096
  {
    hide Published, SumBytes, FilesSize, DropNames, Older, Newer;
    TwoNames();
    PublishedCommitted([OwnRow()]);
    SumBounded(SnapshotSizes(TwoSnapshots()), [Older()], 6 * 4096);
  }

  lemma TwoSnapshotsOk()
    ensures SnapshotsOk(TwoSnapshots())
  {
    hide Published, IndexOf, Committed, Canonical, Older, Newer;
    PublishedCommitted([OwnRow()]);
    PublishedCommitted([]);
    NamesInOrder();
    TwoRows();
  }

  lemma TwoReferencesOk()
    ensures ReferencesOk(TwoSnapshots()) && ObjectsOk(TwoSnapshots(), true)
  {
    hide Published, RowsOf, Older, Newer;
    TwoRows();
  }

  lemma TwoInOrder()
    ensures PlanOk(TwoSnapshots(), 1, true)
  {
    hide Published, DropSnapshotBytes, BytesOf, RowsOf, RetainedHashes, Referenced, Older, Newer, SnapshotsOk,
      ReferencesOk, ObjectsOk, ObjectSizes, TwoSnapshots;
    var d := TwoSnapshots();
    TwoSnapshotsOk();
    TwoReferencesOk();
    FewFileBytes();
    FewBytes(DropOnlyHashes(d, 1));
    FewBytes(UnreferencedHashes(d));
    FewBytes(d.objects.Keys);
  }

  lemma NewerArchive()
    ensures ArchiveOk(TwoSnapshots(), Newer())
  {
    hide ChecksumLines, ObjectIndex.Write, ManifestBody, Older, Newer;
    NamesInOrder();
    assert Published([]).files["legacy.tar"].body == Tar([], true);
    assert TwoSnapshots().snapshots[Newer()] == Published([]);
    assert LegacyArchive.Acceptable([]);
  }

  lemma TwoReady()
    ensures CanStart(TwoSnapshots(), KeepLast(1), Tx('0'))
  {
    hide PlanOk, KeepNames, Published, Older, Newer, ArchiveOk;
    TwoInOrder();
    TwoNames();
    NewerArchive();
  }

  // ----- killed and run again -----

  lemma TxNames()
    ensures TxNameOk(Tx('0')) && TxNameOk(Tx('1')) && Tx('0') != Tx('1')
  {
    assert Tx('0')[3] != Tx('1')[3];
  }

  lemma NothingRetiredYet()
    ensures TwoSnapshots().retired == map[]
  {
    hide Published;
  }

  /** Keeping the newer of the two snapshots, killed after its one rename and run again. */
  lemma KilledPruneDamages()
    ensures var g, d := Restarted(TwoSnapshots()), TwoSnapshots();
      var acts := Issues(UpToLastRename(d, 1, Tx('0'))); var e := Effects(g, acts);
      PruneStarts(e, KeepLast(1), Tx('1')) && !Safe(g, acts, Issues(PruneLog(e.disk, KeepLast(1), Tx('1'))))
  {
    hide CanStart, PruneLog, TwoSnapshots, Effects, Tx, DropNames, Older, Safe, TxNameOk;
    TwoReady();
    TwoNames();
    TxNames();
    NothingRetiredYet();
    KilledAfterLastRename(TwoSnapshots(), 1, Tx('0'), Tx('1'));
  }
}
