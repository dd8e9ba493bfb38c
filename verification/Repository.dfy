/** The backup repository as a value: snapshot directories, the object store, and the
    directory of retired snapshots. */
module Repository {
  import opened Wrappers
  import opened Content
  import Listing
  import Manifest

  /** A directory entry that should be a regular file. */
  datatype FileNode = RegularFile(body: Body) | OtherFile

  /** A directory entry that should be a snapshot directory. */
  datatype SnapshotNode = SnapshotDir(files: map<string, FileNode>) | NotSnapshotDir

  datatype ObjectNode = ObjectFile(data: Bytes) | OtherObject

  /** A retirement transaction: a marker file and the snapshots moved under it. */
  datatype Transaction =
    | Transaction(marker: Option<FileNode>, children: map<string, SnapshotNode>)
    | NotTransactionDir

  datatype Disk = Disk(
    snapshots: map<string, SnapshotNode>,
    objects: map<string, ObjectNode>,
    hasRetiredRoot: bool,
    retired: map<string, Transaction>)

  const COMMITTED_FILES := ["database.dump", "verify.json", "manifest.json", "objects.index", "legacy.tar"]
  const CHECKSUMS := "SHA256SUMS.txt"
  const MAX_CHECKSUM_BYTES := 4096

  const SNAPSHOT_FILES: set<string> :=
    {"database.dump", "verify.json", "manifest.json", "objects.index", "legacy.tar", "SHA256SUMS.txt"}

  // ----- sums of sizes -----

  function SizeOf(sizes: map<string, nat>, name: string): nat {
    if name in sizes then sizes[name] else 0
  }

  function SumBytes(sizes: map<string, nat>, names: seq<string>): nat {
    if names == [] then 0 else SumBytes(sizes, names[..|names| - 1]) + SizeOf(sizes, names[|names| - 1])
  }

  /** `addPlanBytes`: a sum that would pass 2^63-1 is an error. */
  function AddBytes(to: int, n: int): Option<int> {
    if n < 0 || to > MAX_INT64 - n then None else Some(to + n)
  }

  // ----- one snapshot -----

  function FileSizes(files: map<string, FileNode>): map<string, nat> {
    map f | f in files :: if files[f].RegularFile? then files[f].body.Size() else 0
  }

  function FilesSize(files: map<string, FileNode>): nat {
    SumBytes(FileSizes(files), Listing.Of(files.Keys))
  }

  function ChecksumLines(files: map<string, FileNode>, names: seq<string>): string {
    if names == [] then ""
    else
      var last := names[|names| - 1];
      ChecksumLines(files, names[..|names| - 1]) +
        (if last in files && files[last].RegularFile? then Sha256(files[last].body) else "") + "  " + last + "\n"
  }

  /** What the repository demands of a published snapshot directory. */
  ghost predicate Committed(node: SnapshotNode) {
    && node.SnapshotDir?
    && node.files.Keys == SNAPSHOT_FILES
    && (forall f :: f in node.files ==> FileExpected(node.files, SNAPSHOT_FILES, f))
    && FilesSize(node.files) <= MAX_INT64
    && node.files[CHECKSUMS].body.Size() <= MAX_CHECKSUM_BYTES
    && node.files[CHECKSUMS].body == Lines(ChecksumLines(node.files, COMMITTED_FILES))
    && Manifest.ManifestOk(node.files["manifest.json"].body)
  }

  lemma {:induction false} SumBytesPrefix(sizes: map<string, nat>, names: seq<string>, n: nat)
    requires n <= |names|
    ensures SumBytes(sizes, names[..n]) <= SumBytes(sizes, names)
  {
    if n < |names| {
      var k := |names| - 1;
      SumBytesPrefix(sizes, names[..k], n);
      assert names[..k][..n] == names[..n];
    } else {
      assert names[..n] == names;
    }
  }

  lemma SumBytesStep(sizes: map<string, nat>, names: seq<string>, i: nat)
    requires i < |names|
    ensures SumBytes(sizes, names[..i + 1]) == SumBytes(sizes, names[..i]) + SizeOf(sizes, names[i])
    ensures SumBytes(sizes, names[..i + 1]) <= SumBytes(sizes, names)
  {
    assert names[..i + 1][..i] == names[..i];
    SumBytesPrefix(sizes, names, i + 1);
  }

  predicate FileExpected(files: map<string, FileNode>, allowed: set<string>, f: string) {
    f in allowed && f in files && files[f].RegularFile?
  }

  /** One file: expected, regular, and its size added without overflow. */
  function AddFile(files: map<string, FileNode>, allowed: set<string>, name: string, total: int): Option<int> {
    if !FileExpected(files, allowed, name) then None else AddBytes(total, files[name].body.Size())
  }

  lemma AddFileStep(files: map<string, FileNode>, allowed: set<string>, names: seq<string>, i: nat, total: int)
    requires i < |names| && total == SumBytes(FileSizes(files), names[..i]) <= MAX_INT64
    ensures var next := AddFile(files, allowed, names[i], total);
      && (next.Some? ==>
            (FileExpected(files, allowed, names[i])
              && next.value == SumBytes(FileSizes(files), names[..i + 1]) <= MAX_INT64))
      && (next == None ==> !FileExpected(files, allowed, names[i]) || SumBytes(FileSizes(files), names) > MAX_INT64)
  {
    SumBytesStep(FileSizes(files), names, i);
  }

  /** The first pass: only expected regular files, and a sum that does not overflow. */
  method MeasureFiles(files: map<string, FileNode>, allowed: set<string>) returns (size: Option<int>)
    ensures size.Some? <==>
      (forall f :: f in files ==> FileExpected(files, allowed, f)) && FilesSize(files) <= MAX_INT64
    ensures size.Some? ==> size.value == FilesSize(files)
  {
    hide FileSizes, AddFile, FileExpected;
    var names := Listing.Of(files.Keys);
    var total: int := 0;
    for i := 0 to |names|
      invariant forall j :: 0 <= j < i ==> FileExpected(files, allowed, names[j])
      invariant total == SumBytes(FileSizes(files), names[..i]) <= MAX_INT64
    {
      AddFileStep(files, allowed, names, i, total);
      var next := AddFile(files, allowed, names[i], total);
      if next == None {
        assert names[i] in names;
        return None;
      }
      total := next.value;
    }
    assert names[..|names|] == names;
    forall f | f in files ensures FileExpected(files, allowed, f) {
      assert f in names;
    }
    return Some(total);
  }

  /** The second pass: the checksum text the published files call for. */
  method RenderChecksums(files: map<string, FileNode>) returns (text: string)
    requires files.Keys == SNAPSHOT_FILES && forall f :: f in files ==> files[f].RegularFile?
    ensures text == ChecksumLines(files, COMMITTED_FILES)
  {
    text := "";
    for i := 0 to |COMMITTED_FILES|
      invariant text == ChecksumLines(files, COMMITTED_FILES[..i])
    {
      var name := COMMITTED_FILES[i];
      assert COMMITTED_FILES[..i + 1][..i] == COMMITTED_FILES[..i];
      text := text + Sha256(files[name].body) + "  " + name + "\n";
    }
    assert COMMITTED_FILES[..|COMMITTED_FILES|] == COMMITTED_FILES;
  }

  method ValidateCommittedSnapshot(node: SnapshotNode) returns (size: Option<int>)
    ensures size.Some? <==> Committed(node)
    ensures size.Some? ==> size.value == FilesSize(node.files)
  {
    if !node.SnapshotDir? || |node.files.Keys| != |SNAPSHOT_FILES| {
      return None;
    }
    size := MeasureFiles(node.files, SNAPSHOT_FILES);
    if size == None {
      return None;
    }
    SameCardinality(node.files.Keys, SNAPSHOT_FILES);
    if node.files[CHECKSUMS].body.Size() > MAX_CHECKSUM_BYTES {
      return None;
    }
    var actual := RenderChecksums(node.files);
    if node.files[CHECKSUMS].body != Lines(actual) {
      return None;
    }
    var ok := Manifest.ValidateManifest(node.files["manifest.json"].body);
    if !ok {
      return None;
    }
  }

  // ----- what a committed snapshot is -----

  /** One line of the checksum file. */
  ghost function ChecksumLine(files: map<string, FileNode>, name: string): string {
    (if name in files && files[name].RegularFile? then Sha256(files[name].body) else "") + "  " + name + "\n"
  }

  lemma ChecksumText(files: map<string, FileNode>)
    ensures ChecksumLines(files, COMMITTED_FILES) ==
      ChecksumLine(files, "database.dump") + ChecksumLine(files, "verify.json") + ChecksumLine(files, "manifest.json")
        + ChecksumLine(files, "objects.index") + ChecksumLine(files, "legacy.tar")
  {
    var c := COMMITTED_FILES;
    assert c[..0] == [] && ChecksumLines(files, c[..0]) == "";
    ChecksumMore(files, c[..0], "database.dump");
    ChecksumMore(files, c[..1], "verify.json");
    ChecksumMore(files, c[..2], "manifest.json");
    ChecksumMore(files, c[..3], "objects.index");
    ChecksumMore(files, c[..4], "legacy.tar");
    assert c[..0] + ["database.dump"] == c[..1] && c[..1] + ["verify.json"] == c[..2];
    assert c[..2] + ["manifest.json"] == c[..3] && c[..3] + ["objects.index"] == c[..4];
    assert c[..4] + ["legacy.tar"] == c;
    assert "" + ChecksumLine(files, "database.dump") == ChecksumLine(files, "database.dump");
  }

  lemma ChecksumMore(files: map<string, FileNode>, names: seq<string>, name: string)
    ensures ChecksumLines(files, names + [name]) == ChecksumLines(files, names) + ChecksumLine(files, name)
  {
    assert (names + [name])[..|names|] == names;
    var s := if name in files && files[name].RegularFile? then Sha256(files[name].body) else "";
    var before := ChecksumLines(files, names);
    assert before + s + "  " + name + "\n" == before + (s + "  " + name + "\n");
  }

  /** Six regular files, together below 2^63 bytes; a checksum file of at most 4 KiB that has the
      digests of the other five, in their order; and a manifest that passes its gate. */
  lemma CommittedMeaning(node: SnapshotNode)
    ensures Committed(node) <==>
      && node.SnapshotDir?
      && node.files.Keys ==
           {"database.dump", "verify.json", "manifest.json", "objects.index", "legacy.tar", "SHA256SUMS.txt"}
      && (forall f :: f in node.files ==> node.files[f].RegularFile?)
      && FilesSize(node.files) <= 0x7fff_ffff_ffff_ffff
      && node.files["SHA256SUMS.txt"].body.Size() <= 4096
      && node.files["SHA256SUMS.txt"].body == Lines(
           ChecksumLine(node.files, "database.dump") + ChecksumLine(node.files, "verify.json")
           + ChecksumLine(node.files, "manifest.json") + ChecksumLine(node.files, "objects.index")
           + ChecksumLine(node.files, "legacy.tar"))
      && Manifest.ManifestOk(node.files["manifest.json"].body)
  {
    hide FilesSize, ChecksumLines, ChecksumLine, Manifest.ManifestOk;
    if node.SnapshotDir? { ChecksumText(node.files); }
  }

  lemma {:induction false} SameCardinality<T>(a: set<T>, b: set<T>)
    requires a <= b && |a| == |b|
    ensures a == b
  {
    if a != b {
      var x :| x in b && x !in a;
      SubsetSmaller(a, b - {x});
    }
  }

  lemma {:induction false} SubsetSmaller<T>(a: set<T>, b: set<T>)
    requires a <= b
    ensures |a| <= |b|
    decreases |a|
  {
    if a != {} {
      var x :| x in a;
      SubsetSmaller(a - {x}, b - {x});
    }
  }
}
