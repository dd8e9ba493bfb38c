/** Restoring a snapshot into an emptied directory: the archive first, then the objects. */
module Restore {
  import opened Wrappers
  import opened Content
  import opened LegacyArchive
  import opened SourceTree
  import opened Repository
  import opened RetentionPlan
  import opened VerifyReport
  import ObjectIndex
  import PruneSpec

  type Target = map<string, Placed>

  // ----- file-system steps -----

  ghost predicate Clear(tree: Target, dirs: set<string>) {
    forall q :: q in dirs && q in tree ==> tree[q].PlacedDirectory?
  }

  function WithDirectories(tree: Target, dirs: set<string>): Target {
    map q | q in tree.Keys + dirs :: if q in tree then tree[q] else PlacedDirectory
  }

  /** `os.MkdirAll`: fails on a path that leads through a file. */
  method MakeDirectories(tree: Target, dirs: set<string>) returns (r: Option<Target>)
    ensures r.Some? <==> Clear(tree, dirs)
    ensures r.Some? ==> r.value == WithDirectories(tree, dirs)
  {
    var left := dirs;
    while left != {}
      invariant left <= dirs && Clear(tree, dirs - left)
      decreases |left|
    {
      var q :| q in left;
      if q in tree && !tree[q].PlacedDirectory? {
        return None;
      }
      left := left - {q};
    }
    r := Some(WithDirectories(tree, dirs));
  }

  /** Where a new file can go: its directories can be made, and nothing is there. */
  ghost predicate Free(tree: Target, path: string) {
    Clear(tree, Ancestors(path)) && path !in tree
  }

  function WithFile(tree: Target, path: string, file: Placed): Target {
    WithDirectories(tree, Ancestors(path))[path := file]
  }

  /** Making the parents, then creating the file exclusively. */
  method CreateFile(tree: Target, path: string, mode: nat, data: Bytes) returns (r: Option<Target>)
    ensures r.Some? <==> Free(tree, path)
    ensures r.Some? ==> r.value == WithFile(tree, path, PlacedFile(mode, data))
  {
    AncestorsMeaning(path);
    IsNotOwnAncestor(path);
    var made := MakeDirectories(tree, Ancestors(path));
    if made == None || path in made.value {
      return None;
    }
    r := Some(made.value[path := PlacedFile(mode, data)]);
  }

  // ----- what an extracted tree holds -----

  function PlacedEntry(e: TarEntry): Placed {
    PlacedFile(Permissions(e.mode), e.data)
  }

  ghost predicate FileOf(entries: seq<TarEntry>, p: string, f: Placed) {
    exists i :: 0 <= i < |entries| && entries[i].kind.RegularEntry? && LocalName(entries[i]) == p
      && PlacedEntry(entries[i]) == f
  }

  ghost predicate DirectoryOf(entries: seq<TarEntry>, p: string) {
    exists i :: 0 <= i < |entries| &&
      ((entries[i].kind.DirectoryEntry? && LocalName(entries[i]) == p) || IsAncestor(p, LocalName(entries[i])))
  }

  ghost predicate FileAt(tree: Target, p: string, f: Placed) {
    p in tree && tree[p] == f && f.PlacedFile?
  }

  ghost predicate DirectoryAt(tree: Target, p: string) {
    p in tree && tree[p].PlacedDirectory?
  }

  /** The tree holds the archive's regular files, its directories, and the directories above
      them; nothing else. */
  ghost predicate Extracted(tree: Target, entries: seq<TarEntry>) {
    && (forall p, f :: FileAt(tree, p, f) <==> FileOf(entries, p, f))
    && (forall p :: DirectoryAt(tree, p) <==> DirectoryOf(entries, p))
  }

  lemma FileOfStep(before: seq<TarEntry>, e: TarEntry, p: string, f: Placed)
    ensures FileOf(before + [e], p, f) <==>
      FileOf(before, p, f) || (e.kind.RegularEntry? && LocalName(e) == p && PlacedEntry(e) == f)
  {
    hide LocalName, PlacedEntry;
    var all := before + [e];
    assert all[|before|] == e;
    if FileOf(before, p, f) {
      var i :| 0 <= i < |before| && before[i].kind.RegularEntry? && LocalName(before[i]) == p
        && PlacedEntry(before[i]) == f;
      assert all[i] == before[i];
    }
  }

  lemma DirectoryOfStep(before: seq<TarEntry>, e: TarEntry, p: string)
    ensures DirectoryOf(before + [e], p) <==>
      DirectoryOf(before, p) || (e.kind.DirectoryEntry? && LocalName(e) == p) || IsAncestor(p, LocalName(e))
  {
    hide LocalName, IsAncestor;
    var all := before + [e];
    assert all[|before|] == e;
    if DirectoryOf(before, p) {
      var i :| 0 <= i < |before| &&
        ((before[i].kind.DirectoryEntry? && LocalName(before[i]) == p) || IsAncestor(p, LocalName(before[i])));
      assert all[i] == before[i];
    }
  }

  /** Members that can be placed one after another, in any order: distinct names, and no file
      where another needs a directory. */
  ghost predicate Compatible(entries: seq<TarEntry>) {
    DistinctNames(entries) && NoFileAbove(entries) && forall i :: 0 <= i < |entries| ==> !entries[i].kind.OtherEntry?
  }

  lemma AcceptableIsCompatible(entries: seq<TarEntry>)
    requires Acceptable(entries)
    ensures Compatible(entries)
  {
    forall i | 0 <= i < |entries| ensures !entries[i].kind.OtherEntry? { assert EntryOk(entries[i]); }
  }

  lemma CompatiblePrefix(entries: seq<TarEntry>, i: nat)
    requires i < |entries| && Compatible(entries)
    ensures Compatible(entries[..i] + [entries[i]])
  {
    assert entries[..i + 1] == entries[..i] + [entries[i]];
  }

  /** The next member finds no file in its way, and a file finds its place empty. */
  lemma NothingInTheWay(tree: Target, before: seq<TarEntry>, e: TarEntry)
    requires Compatible(before + [e]) && Extracted(tree, before)
    ensures PlacedBy(tree, e).Some?
  {
    hide LocalName, IsAncestor, PlacedEntry;
    var all := before + [e];
    assert all[|before|] == e;
    AncestorsMeaning(LocalName(e));
    forall q | q in tree && tree[q].PlacedFile? ensures q != LocalName(e) && !IsAncestor(q, LocalName(e)) {
      assert FileAt(tree, q, tree[q]);
      assert FileOf(before, q, tree[q]);
      var i :| 0 <= i < |before| && before[i].kind.RegularEntry? && LocalName(before[i]) == q;
      assert all[i] == before[i];
    }
    if e.kind.RegularEntry? && LocalName(e) in tree {
      FileNameTaken(tree, before, e);
      assert false;
    }
  }

  lemma FileNameTaken(tree: Target, before: seq<TarEntry>, e: TarEntry)
    requires Extracted(tree, before) && e.kind.RegularEntry? && DirectoryAt(tree, LocalName(e))
    ensures !Compatible(before + [e])
  {
    hide LocalName, IsAncestor, PlacedEntry;
    var all := before + [e];
    assert all[|before|] == e;
    assert DirectoryOf(before, LocalName(e));
    var i :| 0 <= i < |before| &&
      ((before[i].kind.DirectoryEntry? && LocalName(before[i]) == LocalName(e))
        || IsAncestor(LocalName(e), LocalName(before[i])));
    assert all[i] == before[i];
  }

  lemma FileAdded(tree: Target, before: seq<TarEntry>, e: TarEntry)
    requires Extracted(tree, before) && e.kind.RegularEntry? && Free(tree, LocalName(e))
    ensures Extracted(WithFile(tree, LocalName(e), PlacedEntry(e)), before + [e])
  {
    hide LocalName, IsAncestor, FileOf, DirectoryOf;
    var next := WithFile(tree, LocalName(e), PlacedEntry(e));
    AncestorsMeaning(LocalName(e));
    IsNotOwnAncestor(LocalName(e));
    forall p, f ensures FileAt(next, p, f) <==> FileOf(before + [e], p, f) {
      FileOfStep(before, e, p, f);
      assert FileAt(tree, p, f) <==> FileOf(before, p, f);
    }
    forall p ensures DirectoryAt(next, p) <==> DirectoryOf(before + [e], p) {
      DirectoryOfStep(before, e, p);
      assert DirectoryAt(tree, p) <==> DirectoryOf(before, p);
    }
  }

  lemma DirectoryAdded(tree: Target, before: seq<TarEntry>, e: TarEntry)
    requires Extracted(tree, before) && e.kind.DirectoryEntry? && Clear(tree, Ancestors(LocalName(e)) + {LocalName(e)})
    ensures Extracted(WithDirectories(tree, Ancestors(LocalName(e)) + {LocalName(e)}), before + [e])
  {
    hide LocalName, IsAncestor, FileOf, DirectoryOf;
    var next := WithDirectories(tree, Ancestors(LocalName(e)) + {LocalName(e)});
    AncestorsMeaning(LocalName(e));
    forall p, f ensures FileAt(next, p, f) <==> FileOf(before + [e], p, f) {
      FileOfStep(before, e, p, f);
      assert FileAt(tree, p, f) <==> FileOf(before, p, f);
    }
    forall p ensures DirectoryAt(next, p) <==> DirectoryOf(before + [e], p) {
      DirectoryOfStep(before, e, p);
      assert DirectoryAt(tree, p) <==> DirectoryOf(before, p);
    }
  }

  /** Extraction into an empty tree. An acceptable archive never fails. */
  method Extract(entries: seq<TarEntry>) returns (r: Option<Target>)
    ensures Compatible(entries) ==> r.Some? && Extracted(r.value, entries)
  {
    hide Extracted, Compatible, PlacedBy;
    var tree: Target := map[];
    EmptyTree();
    for i := 0 to |entries|
      invariant Compatible(entries) ==> Extracted(tree, entries[..i])
    {
      var e := entries[i];
      ghost var before := entries[..i];
      assert entries[..i + 1] == before + [e];
      if Compatible(entries) {
        CompatiblePrefix(entries, i);
        NothingInTheWay(tree, before, e);
      }
      var next := PlaceEntry(tree, e);
      if next == None {
        return None;
      }
      if Compatible(entries) {
        EntryPlaced(tree, before, e);
      }
      tree := next.value;
    }
    assert entries[..|entries|] == entries;
    r := Some(tree);
  }

  /** The visitor of one member. */
  method PlaceEntry(tree: Target, e: TarEntry) returns (r: Option<Target>)
    ensures r == PlacedBy(tree, e)
  {
    r := None;
    if e.kind.DirectoryEntry? {
      r := MakeDirectories(tree, Ancestors(LocalName(e)) + {LocalName(e)});
    } else if e.kind.RegularEntry? {
      r := CreateFile(tree, LocalName(e), Permissions(e.mode), e.data);
    }
  }

  ghost function PlacedBy(tree: Target, e: TarEntry): Option<Target> {
    var dirs := Ancestors(LocalName(e)) + {LocalName(e)};
    if e.kind.DirectoryEntry? && Clear(tree, dirs) then Some(WithDirectories(tree, dirs))
    else if e.kind.RegularEntry? && Free(tree, LocalName(e)) then Some(WithFile(tree, LocalName(e), PlacedEntry(e)))
    else None
  }

  lemma EntryPlaced(tree: Target, before: seq<TarEntry>, e: TarEntry)
    requires Extracted(tree, before) && PlacedBy(tree, e).Some?
    ensures Extracted(PlacedBy(tree, e).value, before + [e])
  {
    hide Extracted, LocalName, Clear, WithDirectories, WithFile, PlacedEntry;
    if e.kind.DirectoryEntry? {
      DirectoryAdded(tree, before, e);
    } else {
      FileAdded(tree, before, e);
    }
  }

  lemma EmptyTree()
    ensures Extracted(map[], [])
  {
  }

  // ----- the objects -----

  /** The file that a row restores, seen as one more member. */
  function CasEntry(objects: map<string, ObjectNode>, row: Row): TarEntry
    requires ShaValid(row.hash)
  {
    TarEntry(CasPath(row.hash), RegularEntry, PRIVATE,
      if row.hash in objects && objects[row.hash].ObjectFile? then objects[row.hash].data else [])
  }

  function CasEntries(objects: map<string, ObjectNode>, rows: seq<Row>): (r: seq<TarEntry>)
    requires forall i :: 0 <= i < |rows| ==> ShaValid(rows[i].hash)
    ensures |r| == |rows|
    ensures forall i :: 0 <= i < |rows| ==> r[i] == CasEntry(objects, rows[i])
  {
    if rows == [] then [] else CasEntries(objects, rows[..|rows| - 1]) + [CasEntry(objects, rows[|rows| - 1])]
  }

  lemma CasLocalName(objects: map<string, ObjectNode>, row: Row)
    requires ShaValid(row.hash)
    ensures LocalName(CasEntry(objects, row)) == CasPath(row.hash)
    ensures PlacedEntry(CasEntry(objects, row)).mode == PRIVATE
  {
    var p := CasPath(row.hash);
    assert p[|p| - 1] == row.hash[63];
  }

  /** What lies above an object file: three directories. */
  lemma AboveObject(h: string, q: string)
    requires ShaValid(h)
    ensures IsAncestor(q, CasPath(h)) <==> q == BLOBS || q == CAS_ROOT || q == CAS_ROOT + "/" + h[..2]
  {
    var p := CasPath(h);
    assert CAS_ROOT[..|BLOBS|] == BLOBS && CAS_ROOT[|BLOBS|] == '/';
    assert forall i :: 0 <= i < 20 ==> p[i] == CAS_ROOT[i];
    assert p[20] == '/' && p[21] == h[0] && p[22] == h[1] && p[23] == '/';
    assert forall i :: 24 <= i < |p| ==> p[i] == h[i - 24];
    assert p[..20] == CAS_ROOT && p[..23] == CAS_ROOT + "/" + h[..2] && p[..13] == BLOBS;
    if IsAncestor(q, p) {
      assert p[|q|] == '/';
      assert forall i :: 0 <= i < 20 && CAS_ROOT[i] == '/' ==> i == 13;
    }
  }

  lemma BelowBelow(a: string, b: string, c: string)
    requires AtOrBelow(a, b) && IsAncestor(b, c)
    ensures IsAncestor(a, c)
  {
    assert c[..|a|] == c[..|b|][..|a|];
  }

  /** The archive's members and the objects get along, unless the archive has a file where
      the object root must go. */
  lemma AllCompatible(entries: seq<TarEntry>, objects: map<string, ObjectNode>, rows: seq<Row>)
    requires Acceptable(entries) && ObjectIndex.Distinct(rows) && forall i :: 0 <= i < |rows| ==> ShaValid(rows[i].hash)
    requires rows == [] || !BlobsIsFile(entries)
    ensures Compatible(entries + CasEntries(objects, rows))
  {
    hide LocalName, IsAncestor, CasPath, AtOrBelow, EntryOk;
    AcceptableIsCompatible(entries);
    var cas := CasEntries(objects, rows);
    var all := entries + cas;
    forall i, j | 0 <= i < j < |all| ensures NoClash(all[i], all[j]) {
      if j < |entries| {
        assert all[i] == entries[i] && all[j] == entries[j];
      } else if i < |entries| {
        assert EntryOk(entries[i]);
        MemberAndObject(entries, objects, rows[j - |entries|], i);
      } else {
        ObjectAndObject(objects, rows[i - |entries|], rows[j - |entries|]);
      }
    }
    forall i, j | 0 <= i < |all| && 0 <= j < |all| && all[i].kind.RegularEntry?
      ensures !IsAncestor(LocalName(all[i]), LocalName(all[j]))
    {
      if i < j { assert NoClash(all[i], all[j]); }
      if j < i { assert NoClash(all[j], all[i]); }
      IsNotOwnAncestor(LocalName(all[i]));
    }
  }

  ghost predicate NoClash(a: TarEntry, b: TarEntry) {
    && LocalName(a) != LocalName(b)
    && (a.kind.RegularEntry? ==> !IsAncestor(LocalName(a), LocalName(b)))
    && (b.kind.RegularEntry? ==> !IsAncestor(LocalName(b), LocalName(a)))
  }

  ghost predicate BlobsIsFile(entries: seq<TarEntry>) {
    exists i :: 0 <= i < |entries| && entries[i].kind.RegularEntry? && LocalName(entries[i]) == BLOBS
  }

  lemma RootAbove(h: string)
    requires ShaValid(h)
    ensures IsAncestor(CAS_ROOT, CasPath(h)) && IsAncestor(CAS_ROOT, CAS_ROOT + "/" + h[..2])
  {
    AboveObject(h, CAS_ROOT);
  }

  lemma MemberAndObject(entries: seq<TarEntry>, objects: map<string, ObjectNode>, row: Row, i: nat)
    requires Acceptable(entries) && !BlobsIsFile(entries) && ShaValid(row.hash) && i < |entries|
    ensures NoClash(entries[i], CasEntry(objects, row))
  {
    hide LocalName, IsAncestor, CasPath;
    assert EntryOk(entries[i]);
    EntryOkMeaning(entries[i]);
    CasLocalName(objects, row);
    RootAbove(row.hash);
    var q := LocalName(entries[i]);
    AboveObject(row.hash, q);
    if IsAncestor(CasPath(row.hash), q) { BelowBelow(CAS_ROOT, CasPath(row.hash), q); }
  }

  lemma ObjectAndObject(objects: map<string, ObjectNode>, a: Row, b: Row)
    requires ShaValid(a.hash) && ShaValid(b.hash) && a.hash != b.hash
    ensures NoClash(CasEntry(objects, a), CasEntry(objects, b))
  {
    CasLocalName(objects, a);
    CasLocalName(objects, b);
    assert CasPath(a.hash)[24..] == a.hash && CasPath(b.hash)[24..] == b.hash;
  }

  lemma {:induction false} CasEntriesPrefix(objects: map<string, ObjectNode>, rows: seq<Row>, i: nat)
    requires i < |rows| && forall j :: 0 <= j < |rows| ==> ShaValid(rows[j].hash)
    ensures CasEntries(objects, rows[..i + 1]) == CasEntries(objects, rows[..i]) + [CasEntry(objects, rows[i])]
  {
    assert rows[..i + 1][..i] == rows[..i];
  }

  /** While the objects are restored: the next one can be placed, or the very first one fails
      because the archive put a file above it. */
  lemma NextObject(tree: Target, entries: seq<TarEntry>, objects: map<string, ObjectNode>, rows: seq<Row>, i: nat)
    requires Acceptable(entries) && ObjectIndex.Distinct(rows) && forall j :: 0 <= j < |rows| ==> ShaValid(rows[j].hash)
    requires i < |rows| && Extracted(tree, entries + CasEntries(objects, rows[..i]))
    ensures !BlobsIsFile(entries) <==> Free(tree, CasPath(rows[i].hash))
    ensures !BlobsIsFile(entries) ==>
      Extracted(WithFile(tree, CasPath(rows[i].hash), PlacedEntry(CasEntry(objects, rows[i]))),
        entries + CasEntries(objects, rows[..i + 1]))
  {
    hide Acceptable, Extracted, CasPath, WithFile, PlacedEntry, LocalName, Clear;
    var before, e := entries + CasEntries(objects, rows[..i]), CasEntry(objects, rows[i]);
    CasLocalName(objects, rows[i]);
    CasEntriesPrefix(objects, rows, i);
    assert entries + CasEntries(objects, rows[..i + 1]) == before + [e];
    if BlobsIsFile(entries) {
      BlobsBlocks(tree, entries, CasEntries(objects, rows[..i]), rows[i].hash);
    } else {
      AllCompatible(entries, objects, rows[..i + 1]);
      NothingInTheWay(tree, before, e);
      EntryPlaced(tree, before, e);
    }
  }

  lemma BlobsBlocks(tree: Target, entries: seq<TarEntry>, cas: seq<TarEntry>, h: string)
    requires BlobsIsFile(entries) && Extracted(tree, entries + cas) && ShaValid(h)
    ensures !Free(tree, CasPath(h))
  {
    hide LocalName, CasPath, IsAncestor, PlacedEntry;
    var i :| 0 <= i < |entries| && entries[i].kind.RegularEntry? && LocalName(entries[i]) == BLOBS;
    assert (entries + cas)[i] == entries[i];
    var f := PlacedEntry(entries[i]);
    assert FileOf(entries + cas, BLOBS, f);
    assert FileAt(tree, BLOBS, f);
    AncestorsMeaning(CasPath(h));
    AboveObject(h, BLOBS);
  }

  /** The objects of the index, each created exclusively below the object root. */
  method RestoreObjects(tree: Target, d: Disk, rows: seq<Row>, ghost entries: seq<TarEntry>) returns (r: Option<Target>)
    requires Acceptable(entries) && Extracted(tree, entries)
    requires ObjectIndex.Distinct(rows)
    requires forall i :: 0 <= i < |rows| ==> ShaValid(rows[i].hash) && RowOk(d, rows[i])
    ensures r.Some? <==> rows == [] || !BlobsIsFile(entries)
    ensures r.Some? ==> Extracted(r.value, entries + CasEntries(d.objects, rows))
  {
    hide Extracted, Acceptable, CasPath, Free, WithFile, BlobsIsFile, ObjectIndex.Distinct;
    var placed := tree;
    assert entries + CasEntries(d.objects, rows[..0]) == entries;
    for i := 0 to |rows|
      invariant Extracted(placed, entries + CasEntries(d.objects, rows[..i]))
      invariant i > 0 ==> !BlobsIsFile(entries)
    {
      NextObject(placed, entries, d.objects, rows, i);
      assert RowOk(d, rows[i]);
      var next := CreateFile(placed, CasPath(rows[i].hash), PRIVATE, d.objects[rows[i].hash].data);
      if next == None {
        return None;
      }
      PrivateMode(d.objects, rows[i]);
      placed := next.value;
    }
    assert rows[..|rows|] == rows;
    r := Some(placed);
  }

  lemma PrivateMode(objects: map<string, ObjectNode>, row: Row)
    requires ShaValid(row.hash) && row.hash in objects && objects[row.hash].ObjectFile?
    ensures PlacedEntry(CasEntry(objects, row)) == PlacedFile(PRIVATE, objects[row.hash].data)
  {
  }

  // ----- restore -----

  function EntriesOf(d: Disk, name: string): seq<TarEntry> {
    if name in d.snapshots && d.snapshots[name].SnapshotDir? && "legacy.tar" in d.snapshots[name].files &&
       d.snapshots[name].files["legacy.tar"].RegularFile? && d.snapshots[name].files["legacy.tar"].body.Tar?
    then d.snapshots[name].files["legacy.tar"].body.entries
    else []
  }

  lemma ReadingFacts(d: Disk, name: string)
    ensures ObjectIndex.Distinct(ReadingOf(d, name).rows)
    ensures forall i :: 0 <= i < |ReadingOf(d, name).rows| ==> ObjectIndex.RowValid(ReadingOf(d, name).rows[i])
  {
    if name in d.snapshots {
      var node := d.snapshots[name];
      if node.SnapshotDir? && "objects.index" in node.files && node.files["objects.index"].RegularFile? &&
         node.files["objects.index"].body.Lines? {
        ObjectIndex.ReadLinesDistinct(ObjectIndex.SplitLines(node.files["objects.index"].body.text), {});
      }
    }
  }

  /** A restore succeeds exactly on a snapshot that verifies and whose archive leaves room for
      the object root. */
  ghost predicate Restorable(d: Disk, name: string) {
    Verified(d, name, true) && (ReadingOf(d, name).rows == [] || !BlobsIsFile(EntriesOf(d, name)))
  }

  ghost predicate RestoredFrom(tree: Target, d: Disk, name: string) {
    && (forall i :: 0 <= i < |ReadingOf(d, name).rows| ==> ShaValid(ReadingOf(d, name).rows[i].hash))
    && Extracted(tree, EntriesOf(d, name) + CasEntries(d.objects, ReadingOf(d, name).rows))
  }

  lemma VerifiedFacts(d: Disk, name: string)
    requires Verified(d, name, true)
    ensures Acceptable(EntriesOf(d, name)) && Compatible(EntriesOf(d, name))
    ensures forall i :: 0 <= i < |ReadingOf(d, name).rows| ==> RowOk(d, ReadingOf(d, name).rows[i])
  {
    hide MetadataOk, IndexOf, Acceptable, Compatible;
    AcceptableIsCompatible(EntriesOf(d, name));
    var rows := ReadingOf(d, name).rows;
    forall i | 0 <= i < |rows| ensures RowOk(d, rows[i]) {
      assert Defect(d, rows[i], true, Hashed(rows[..i], true)) == None;
    }
  }

  // ----- the same, in plain terms -----

  /** A member of the archive, or an object that the index has a row for, comes back as this file. */
  ghost predicate PutBack(d: Disk, name: string, p: string, mode: nat, data: Bytes) {
    || (exists entries, i :: PruneSpec.Expands(d, name, entries) && MemberPutBack(entries, i, p, mode, data))
    || (exists row :: HasRow(d, name, row) && ObjectPutBack(d, row, p, mode, data))
  }

  ghost predicate MemberPutBack(entries: seq<TarEntry>, i: int, p: string, mode: nat, data: Bytes) {
    && 0 <= i < |entries| && entries[i].kind.RegularEntry?
    && entries[i].name == p && entries[i].mode % 512 == mode && entries[i].data == data
  }

  ghost predicate ObjectPutBack(d: Disk, row: Row, p: string, mode: nat, data: Bytes) {
    && ShaValid(row.hash) && p == ".xdrive-blobs/sha256/" + row.hash[..2] + "/" + row.hash
    && mode == 384 && row.hash in d.objects && d.objects[row.hash] == ObjectFile(data)
  }

  lemma VerifiedExpands(d: Disk, name: string)
    requires Verified(d, name, true)
    ensures PruneSpec.Expands(d, name, EntriesOf(d, name))
    ensures forall entries :: PruneSpec.Expands(d, name, entries) ==> entries == EntriesOf(d, name)
    ensures forall row :: HasRow(d, name, row) <==> row in ReadingOf(d, name).rows
  {
    hide MetadataOk, PassUpTo, ObjectIndex.Read, Acceptable;
    forall row ensures HasRow(d, name, row) <==> row in ReadingOf(d, name).rows { HasRowIs(d, name, row); }
  }

  lemma FileOfBoth(a: seq<TarEntry>, b: seq<TarEntry>, p: string, f: Placed)
    ensures FileOf(a + b, p, f) <==> FileOf(a, p, f) || FileOf(b, p, f)
  {
    hide LocalName, PlacedEntry;
    var all := a + b;
    if i :| 0 <= i < |a| && a[i].kind.RegularEntry? && LocalName(a[i]) == p && PlacedEntry(a[i]) == f {
      assert all[i] == a[i];
    }
    if i :| 0 <= i < |b| && b[i].kind.RegularEntry? && LocalName(b[i]) == p && PlacedEntry(b[i]) == f {
      assert all[|a| + i] == b[i];
    }
    if i :| 0 <= i < |all| && all[i].kind.RegularEntry? && LocalName(all[i]) == p && PlacedEntry(all[i]) == f {
      assert i >= |a| ==> all[i] == b[i - |a|];
    }
  }

  lemma MembersPutBack(a: seq<TarEntry>, p: string, mode: nat, data: Bytes)
    requires Acceptable(a)
    ensures FileOf(a, p, PlacedFile(mode, data)) <==> exists i :: MemberPutBack(a, i, p, mode, data)
  {
    hide LocalName, PlacedEntry, MemberPutBack, Acceptable;
    forall i | 0 <= i < |a|
      ensures a[i].kind.RegularEntry? && LocalName(a[i]) == p && PlacedEntry(a[i]) == PlacedFile(mode, data) <==>
        MemberPutBack(a, i, p, mode, data)
    {
      MemberIs(a, i, p, mode, data);
    }
    forall i | MemberPutBack(a, i, p, mode, data) ensures 0 <= i < |a| { MemberThere(a, i, p, mode, data); }
  }

  lemma MemberThere(a: seq<TarEntry>, i: int, p: string, mode: nat, data: Bytes)
    requires MemberPutBack(a, i, p, mode, data)
    ensures 0 <= i < |a|
  {
  }

  lemma {:induction false} ObjectsPutBack(d: Disk, rows: seq<Row>, p: string, mode: nat, data: Bytes)
    requires forall i :: 0 <= i < |rows| ==> ShaValid(rows[i].hash) && RowOk(d, rows[i])
    ensures FileOf(CasEntries(d.objects, rows), p, PlacedFile(mode, data)) <==>
      exists row :: row in rows && ObjectPutBack(d, row, p, mode, data)
  {
    hide LocalName, PlacedEntry, ObjectPutBack, RowOk, CasEntry, ShaValid;
    var b := CasEntries(d.objects, rows);
    forall i | 0 <= i < |rows|
      ensures b[i].kind.RegularEntry? && LocalName(b[i]) == p && PlacedEntry(b[i]) == PlacedFile(mode, data) <==>
        ObjectPutBack(d, rows[i], p, mode, data)
    {
      ObjectIs(d, rows[i], p, mode, data);
    }
    if FileOf(b, p, PlacedFile(mode, data)) {
      var i :| 0 <= i < |b| && b[i].kind.RegularEntry? && LocalName(b[i]) == p
        && PlacedEntry(b[i]) == PlacedFile(mode, data);
      assert rows[i] in rows;
    }
  }

  lemma FilePutBack(d: Disk, name: string, p: string, mode: nat, data: Bytes)
    requires Verified(d, name, true)
    requires forall i :: 0 <= i < |ReadingOf(d, name).rows| ==> ShaValid(ReadingOf(d, name).rows[i].hash)
    ensures FileOf(EntriesOf(d, name) + CasEntries(d.objects, ReadingOf(d, name).rows), p, PlacedFile(mode, data)) <==>
      PutBack(d, name, p, mode, data)
  {
    hide Verified, PruneSpec.Expands, HasRow, ReadingOf, EntriesOf, RowOk, Compatible, EntryOk, FileOf, MemberPutBack,
      ObjectPutBack, ShaValid, Acceptable;
    VerifiedExpands(d, name);
    VerifiedFacts(d, name);
    var a, rows := EntriesOf(d, name), ReadingOf(d, name).rows;
    FileOfBoth(a, CasEntries(d.objects, rows), p, PlacedFile(mode, data));
    MembersPutBack(a, p, mode, data);
    ObjectsPutBack(d, rows, p, mode, data);
  }

  lemma MemberIs(a: seq<TarEntry>, i: nat, p: string, mode: nat, data: Bytes)
    requires Acceptable(a) && i < |a|
    ensures a[i].kind.RegularEntry? && LocalName(a[i]) == p && PlacedEntry(a[i]) == PlacedFile(mode, data) <==>
      MemberPutBack(a, i, p, mode, data)
  {
    assert EntryOk(a[i]);
    EntryOkMeaning(a[i]);
  }

  lemma ObjectIs(d: Disk, row: Row, p: string, mode: nat, data: Bytes)
    requires ShaValid(row.hash) && RowOk(d, row)
    ensures var e := CasEntry(d.objects, row);
      e.kind.RegularEntry? && LocalName(e) == p && PlacedEntry(e) == PlacedFile(mode, data) <==>
        ObjectPutBack(d, row, p, mode, data)
  {
    hide ShaValid, LocalName;
    CasLocalName(d.objects, row);
    assert ShaValid(row.hash) && |row.hash| == 64 by { HashLength(row.hash); }
    assert CasPath(row.hash) == ".xdrive-blobs/sha256/" + row.hash[..2] + "/" + row.hash;
    assert Permissions(384) == 384;
  }

  lemma HashLength(h: string)
    requires ShaValid(h)
    ensures |h| == 64
  {
  }

  lemma TreePutBack(tree: Target, d: Disk, name: string)
    requires Verified(d, name, true) && RestoredFrom(tree, d, name)
    ensures forall p, mode, data ::
      p in tree && tree[p] == PlacedFile(mode, data) <==> PutBack(d, name, p, mode, data)
  {
    hide Verified, PutBack, FileOf, DirectoryOf;
    forall p, mode, data ensures p in tree && tree[p] == PlacedFile(mode, data) <==> PutBack(d, name, p, mode, data) {
      FilePutBack(d, name, p, mode, data);
      assert FileAt(tree, p, PlacedFile(mode, data)) <==> p in tree && tree[p] == PlacedFile(mode, data);
    }
  }

  class Destination {
    var tree: Target

    constructor (content: Target)
      ensures tree == content
    {
      tree := content;
    }

    /** Verify, empty the destination, extract the archive, restore the objects. A snapshot
        that does not verify leaves the destination as it was. */
    method RestoreSnapshot(d: Disk, name: string) returns (ok: bool)
      modifies this
      ensures !Verified(d, name, true) ==> !ok && tree == old(tree)
      ensures ok <==> Restorable(d, name)
      ensures ok ==> RestoredFrom(tree, d, name)
      ensures ok ==> forall p, mode, data ::
        p in tree && tree[p] == PlacedFile(mode, data) <==> PutBack(d, name, p, mode, data)
    {
      hide Verified, Extracted, Acceptable, Compatible, BlobsIsFile, PutBack;
      var verification := VerifyWithReport(d, name, true);
      if verification.failure.Some? {
        return false;
      }
      VerifiedFacts(d, name);
      ReadingFacts(d, name);
      tree := map[];
      var entries, rows := EntriesOf(d, name), ReadingOf(d, name).rows;
      var extracted := Extract(entries);
      tree := extracted.value;
      var complete := RestoreObjects(tree, d, rows, entries);
      if complete == None {
        return false;
      }
      tree := complete.value;
      TreePutBack(tree, d, name);
      ok := true;
    }
  }
}
