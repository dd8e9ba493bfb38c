/** Capture and restore undo each other. */
module RoundTrip {
  import opened Wrappers
  import opened Content
  import opened LegacyArchive
  import opened SourceTree
  import opened Capture
  import opened Repository
  import opened Restore
  import ObjectIndex

  /** The store has, for every object file of the source, the same bytes under its hash. */
  ghost predicate StoreHas(objects: map<string, ObjectNode>, walk: seq<Item>) {
    forall i :: 0 <= i < |walk| && CasItem(walk[i]) ==>
      HashOf(walk[i]) in objects && objects[HashOf(walk[i])] == ObjectFile(DataOf(walk[i]))
  }

  ghost predicate WellFormedSource(walk: seq<Item>) {
    IsWalk(walk) && forall i :: 0 <= i < |walk| ==> Takeable(walk[i]) && Encodable(walk[i])
  }

  lemma RowsShaValid(walk: seq<Item>)
    requires WellFormedSource(walk)
    ensures ObjectIndex.Distinct(CasRows(walk))
    ensures forall i :: 0 <= i < |CasRows(walk)| ==> ShaValid(CasRows(walk)[i].hash)
  {
    hide CasRows, Takeable, Encodable;
    RowsDistinctAndValid(walk);
    forall i | 0 <= i < |CasRows(walk)| ensures ShaValid(CasRows(walk)[i].hash) {
      assert ObjectIndex.RowValid(CasRows(walk)[i]);
    }
  }

  /** What an object item is restored to. */
  lemma ObjectItem(objects: map<string, ObjectNode>, walk: seq<Item>, j: nat)
    requires WellFormedSource(walk) && StoreHas(objects, walk) && j < |walk| && CasItem(walk[j])
    ensures ShaValid(HashOf(walk[j])) && Returns(walk[j]) && walk[j].node.File?
    ensures var e := CasEntry(objects, ObjectIndex.Row(HashOf(walk[j]), |DataOf(walk[j])|));
      LocalName(e) == walk[j].path && PlacedEntry(e) == Returned(walk[j])
  {
    hide LocalName, Encodable, AtOrBelow, CasHash;
    var item := walk[j];
    assert Takeable(item);
    CasHashMeaning(item.path, HashOf(item));
    CasLocalName(objects, ObjectIndex.Row(HashOf(item), |DataOf(item)|));
  }

  /** What an archived file is restored to. */
  lemma ArchivedItem(walk: seq<Item>, j: nat)
    requires WellFormedSource(walk) && j < |walk| && !Skipped(walk[j])
    ensures LocalName(EntryOf(walk[j])) == walk[j].path
    ensures EntryOf(walk[j]).kind.RegularEntry? <==> Returns(walk[j])
    ensures Returns(walk[j]) ==> walk[j].node.File?
    ensures Returns(walk[j]) ==> PlacedEntry(EntryOf(walk[j])) == Returned(walk[j])
  {
    hide LocalName, AtOrBelow, CasHash;
    assert ProperPath(walk[j].path);
    LocalNameOf(walk[j]);
  }

  lemma NoBlobsFile(walk: seq<Item>)
    requires WellFormedSource(walk)
    ensures !BlobsIsFile(ArchiveOf(walk))
  {
    hide LocalName, Skipped, Takeable, Encodable, EntryOf, Returns;
    var entries := ArchiveOf(walk);
    forall i | 0 <= i < |entries| && entries[i].kind.RegularEntry? ensures LocalName(entries[i]) != BLOBS {
      var j := EntryFrom(walk, i);
      ArchivedItem(walk, j);
      if walk[j].path == BLOBS { BlobsIsDirectory(walk, j); }
    }
  }

  lemma BlobsIsDirectory(walk: seq<Item>, j: nat)
    requires WellFormedSource(walk) && j < |walk| && walk[j].path == BLOBS
    ensures !Returns(walk[j])
  {
    assert Takeable(walk[j]);
  }

  lemma RestoredFile(objects: map<string, ObjectNode>, walk: seq<Item>, p: string, f: Placed)
    requires WellFormedSource(walk) && StoreHas(objects, walk)
    requires forall i :: 0 <= i < |CasRows(walk)| ==> ShaValid(CasRows(walk)[i].hash)
    requires FileOf(ArchiveOf(walk) + CasEntries(objects, CasRows(walk)), p, f)
    ensures p in FilesOf(walk) && FilesOf(walk)[p] == f
  {
    hide LocalName, Returns, Returned, Skipped, CasItem, HashOf, DataOf, EntryOf, CasEntry, PlacedEntry, StoreHas,
      Takeable, Encodable;
    var a, all := ArchiveOf(walk), ArchiveOf(walk) + CasEntries(objects, CasRows(walk));
    var i :| 0 <= i < |all| && all[i].kind.RegularEntry? && LocalName(all[i]) == p && PlacedEntry(all[i]) == f;
    FilesOfMeaning(walk, p);
    if i < |a| {
      var j := EntryFrom(walk, i);
      ArchivedItem(walk, j);
      assert walk[j].path == p && Returns(walk[j]) && Returned(walk[j]) == f;
    } else {
      var j := RowFrom(walk, i - |a|);
      ObjectItem(objects, walk, j);
      assert walk[j].path == p && Returns(walk[j]) && Returned(walk[j]) == f;
    }
  }

  lemma FileRestored(objects: map<string, ObjectNode>, walk: seq<Item>, p: string)
    requires WellFormedSource(walk) && StoreHas(objects, walk)
    requires forall i :: 0 <= i < |CasRows(walk)| ==> ShaValid(CasRows(walk)[i].hash)
    requires p in FilesOf(walk)
    ensures FileOf(ArchiveOf(walk) + CasEntries(objects, CasRows(walk)), p, FilesOf(walk)[p])
  {
    hide LocalName, Returned, HashOf, DataOf, EntryOf, CasEntry, PlacedEntry, StoreHas, Takeable, Encodable, Returns,
      CasItem, Skipped;
    var a, all := ArchiveOf(walk), ArchiveOf(walk) + CasEntries(objects, CasRows(walk));
    FilesOfMeaning(walk, p);
    var j :| 0 <= j < |walk| && walk[j].path == p && Returns(walk[j]);
    var i;
    ReturnsWhere(walk[j]);
    if CasItem(walk[j]) {
      i := RowFor(walk, j);
      ObjectItem(objects, walk, j);
      i := i + |a|;
    } else {
      i := EntryFor(walk, j);
      ArchivedItem(walk, j);
    }
    CasIsRegular(objects, CasRows(walk));
    assert all[i].kind.RegularEntry? && LocalName(all[i]) == p && PlacedEntry(all[i]) == FilesOf(walk)[p];
  }

  lemma ReturnsWhere(item: Item)
    requires Returns(item)
    ensures CasItem(item) || !Skipped(item)
  {
  }

  lemma CasIsRegular(objects: map<string, ObjectNode>, rows: seq<ObjectIndex.Row>)
    requires forall i :: 0 <= i < |rows| ==> ShaValid(rows[i].hash)
    ensures forall i :: 0 <= i < |rows| ==> CasEntries(objects, rows)[i].kind.RegularEntry?
  {
  }

  /** The restored tree has exactly the source's files: same paths, same bytes, same
      permissions outside the object root. */
  lemma RestoredIsSource(objects: map<string, ObjectNode>, walk: seq<Item>, tree: Target)
    requires WellFormedSource(walk) && StoreHas(objects, walk)
    requires forall i :: 0 <= i < |CasRows(walk)| ==> ShaValid(CasRows(walk)[i].hash)
    requires Extracted(tree, ArchiveOf(walk) + CasEntries(objects, CasRows(walk)))
    ensures forall p, f :: FileAt(tree, p, f) <==> p in FilesOf(walk) && FilesOf(walk)[p] == f
  {
    hide FileOf, StoreHas, WellFormedSource;
    forall p, f ensures FileAt(tree, p, f) <==> p in FilesOf(walk) && FilesOf(walk)[p] == f {
      assert FileAt(tree, p, f) <==> FileOf(ArchiveOf(walk) + CasEntries(objects, CasRows(walk)), p, f);
      if FileAt(tree, p, f) { RestoredFile(objects, walk, p, f); }
      if p in FilesOf(walk) && FilesOf(walk)[p] == f { FileRestored(objects, walk, p); }
    }
  }

  // ----- what a backup owes, path by path -----

  /** 64 lower-case hexadecimal digits. */
  predicate HexName(h: string) {
    |h| == 64 && forall i :: 0 <= i < 64 ==> h[i] in "0123456789abcdef"
  }

  function ObjectPath(h: string): string
    requires |h| >= 2
  {
    ".xdrive-blobs/sha256/" + h[..2] + "/" + h
  }

  predicate InStore(path: string) {
    path == ".xdrive-blobs/sha256" || ".xdrive-blobs/sha256/" <= path
  }

  /** Some component after the last slash marks an unfinished upload. */
  ghost predicate Unfinished(path: string) {
    exists head, rest: string :: '/' !in rest && path == head + "/" + (".xdrive-upload-" + rest)
  }

  /** What a regular file of the source must come back as. An object comes back private, any other
      file with its permissions; what lies below the media cache does not come back. */
  ghost predicate Owed(item: Item, f: Placed) {
    && item.node.File?
    && (if InStore(item.path)
        then f == PlacedFile(384, item.node.data) && exists h :: HexName(h) && item.path == ObjectPath(h)
        else f == PlacedFile(item.node.mode % 512, item.node.data) && !(".xdrive-media/" <= item.path))
  }

  lemma HexIsSha(h: string)
    ensures HexName(h) <==> ShaValid(h)
  {
    assert forall c: char :: c in "0123456789abcdef" <==> '0' <= c <= '9' || 'a' <= c <= 'f';
  }

  lemma InStoreIs(path: string)
    ensures InStore(path) <==> AtOrBelow(CAS_ROOT, path)
    ensures ".xdrive-media/" <= path <==> IsAncestor(MEDIA, path)
  {
    PrefixIs(".xdrive-blobs/sha256", path);
    PrefixIs(".xdrive-media", path);
  }

  lemma PrefixIs(q: string, path: string)
    ensures q + "/" <= path <==> IsAncestor(q, path)
  {
    if q + "/" <= path { assert path[..|q| + 1] == q + "/"; }
    if IsAncestor(q, path) { assert path[..|q| + 1] == q + "/"; }
  }

  lemma ObjectPathIs(h: string)
    requires HexName(h)
    ensures ObjectPath(h) == CasPath(h) && BaseName(ObjectPath(h)) == h && CasHash(ObjectPath(h)) == Some(h)
    ensures InStore(ObjectPath(h)) && !(UPLOAD <= h)
  {
    hide CasHash, BaseName, HexName, ShaValid;
    HexIsSha(h);
    NameIsPlain(h);
    ObjectPathSpelled(h);
    BaseNameAfter(".xdrive-blobs/sha256/" + h[..2], h);
    CasHashMeaning(ObjectPath(h), h);
  }

  lemma NameIsPlain(h: string)
    requires HexName(h)
    ensures |h| == 64 && '/' !in h && !(UPLOAD <= h)
  {
    HexIsSha(h);
    HexHasNoSlash(h);
    assert UPLOAD[0] == '.' && h[0] in "0123456789abcdef";
  }

  lemma ObjectPathSpelled(h: string)
    requires ShaValid(h)
    ensures ObjectPath(h) == CasPath(h) && ObjectPath(h) == ".xdrive-blobs/sha256/" + h[..2] + "/" + h
    ensures InStore(ObjectPath(h))
  {
    assert ObjectPath(h) == ".xdrive-blobs/sha256/" + (h[..2] + "/" + h);
  }

  lemma UnfinishedIs(item: Item)
    requires '/' in item.path
    ensures Unfinished(item.path) <==> Staging(item)
  {
    hide LastSlash, BaseName;
    if Staging(item) { StagingIsUnfinished(item.path); }
    if head, rest: string :| '/' !in rest && item.path == head + "/" + (".xdrive-upload-" + rest) {
      assert '/' !in ".xdrive-upload-";
      BaseNameAfter(head, ".xdrive-upload-" + rest);
    }
  }

  lemma StagingIsUnfinished(p: string)
    requires '/' in p && UPLOAD <= BaseName(p)
    ensures Unfinished(p)
  {
    var k := LastSlash(p);
    var base := p[k + 1..];
    var rest := base[15..];
    assert base == ".xdrive-upload-" + rest;
    assert p == p[..k] + "/" + base;
    assert '/' !in rest;
  }

  lemma InStoreHasSlash(path: string)
    requires InStore(path)
    ensures '/' in path
  {
    if path == ".xdrive-blobs/sha256" { assert path[13] == '/'; } else { assert path[20] == '/'; }
  }

  /** An item of a source that can be captured returns exactly as it is owed. */
  lemma ReturnsAsOwed(item: Item, f: Placed)
    requires Takeable(item) && item.node.File?
    ensures Returns(item) && Returned(item) == f <==> Owed(item, f)
  {
    hide CasHash, AtOrBelow, IsAncestor, ObjectPath, InStore, Staging;
    InStoreIs(item.path);
    if InStore(item.path) {
      if CasItem(item) { PlaceOf(item.path, CasHash(item.path).value); }
      if h :| HexName(h) && item.path == ObjectPath(h) {
        ObjectPathIs(h);
        ObjectIsFinished(item, h);
      }
    }
  }

  lemma ObjectIsFinished(item: Item, h: string)
    requires HexName(h) && item.path == ObjectPath(h)
    ensures !Staging(item)
  {
    hide ObjectPath, BaseName, HexName;
    ObjectPathIs(h);
  }

  /** The files that a backup of a well-formed source owes. */
  lemma FilesAreOwed(walk: seq<Item>, p: string, f: Placed)
    requires WellFormedSource(walk)
    ensures p in FilesOf(walk) && FilesOf(walk)[p] == f <==>
      exists i :: 0 <= i < |walk| && walk[i].path == p && Owed(walk[i], f)
  {
    hide Returns, Returned, Takeable, Encodable, Owed;
    FilesOfMeaning(walk, p);
    forall i | 0 <= i < |walk| && walk[i].node.File?
      ensures Returns(walk[i]) && Returned(walk[i]) == f <==> Owed(walk[i], f)
    {
      ReturnsAsOwed(walk[i], f);
    }
    forall i | 0 <= i < |walk| ensures Returns(walk[i]) || Owed(walk[i], f) ==> walk[i].node.File? {
      FileReturns(walk[i], f);
    }
  }

  lemma FileReturns(item: Item, f: Placed)
    ensures Returns(item) || Owed(item, f) ==> item.node.File?
  {
  }

  predicate IsObjectFile(item: Item, h: string, size: nat)
    requires HexName(h)
  {
    item.path == ObjectPath(h) && item.node.File? && |item.node.data| == size
  }

  /** Every object file of the source has its row in the index, and every row its object file. */
  lemma RowsAreOwed(walk: seq<Item>, h: string, size: nat)
    requires WellFormedSource(walk)
    ensures ObjectIndex.Row(h, size) in CasRows(walk) <==>
      HexName(h) && exists i :: 0 <= i < |walk| && IsObjectFile(walk[i], h, size)
  {
    hide CasHash, CasRows, HexName, ObjectPath, AtOrBelow, Encodable, BaseName;
    if ObjectIndex.Row(h, size) in CasRows(walk) {
      var r :| 0 <= r < |CasRows(walk)| && CasRows(walk)[r] == ObjectIndex.Row(h, size);
      var j := RowFrom(walk, r);
      assert Takeable(walk[j]);
      PlaceOf(walk[j].path, h);
      assert IsObjectFile(walk[j], h, size);
    }
    if HexName(h) {
      ObjectPathIs(h);
      InStoreIs(ObjectPath(h));
      if i :| 0 <= i < |walk| && IsObjectFile(walk[i], h, size) {
        var r := RowFor(walk, i);
      }
    }
  }

  /** The same of any walk, capturable or not: an object file in its place comes back and has its
      row, any other file outside the store and the media cache comes back, and an unfinished upload
      neither comes back nor keeps the source from being captured. */
  lemma EachFileIsOwed(walk: seq<Item>, i: nat, h: string)
    requires IsWalk(walk) && i < |walk|
    ensures HexName(h) && walk[i].path == ObjectPath(h) && walk[i].node.File? ==>
      && walk[i].path in FilesOf(walk) && FilesOf(walk)[walk[i].path] == PlacedFile(384, walk[i].node.data)
      && ObjectIndex.Row(h, |walk[i].node.data|) in CasRows(walk)
    ensures !InStore(walk[i].path) && !(".xdrive-media/" <= walk[i].path) && walk[i].node.File? ==>
      && walk[i].path in FilesOf(walk)
      && FilesOf(walk)[walk[i].path] == PlacedFile(walk[i].node.mode % 512, walk[i].node.data)
    ensures InStore(walk[i].path) && Unfinished(walk[i].path) ==>
      walk[i].path !in FilesOf(walk) && forall objects :: ItemCapturable(objects, walk[i])
  {
    hide CasHash, CasRows, ObjectPath, AtOrBelow, IsAncestor, BaseName, Staging, InStore, Unfinished;
    FilesOfMeaning(walk, walk[i].path);
    InStoreIs(walk[i].path);
    if HexName(h) && walk[i].path == ObjectPath(h) && walk[i].node.File? {
      ObjectPathIs(h);
      ObjectIsFinished(walk[i], h);
      var r := RowFor(walk, i);
    }
    if InStore(walk[i].path) && Unfinished(walk[i].path) {
      InStoreHasSlash(walk[i].path);
      UnfinishedIs(walk[i]);
      NotTheParent(walk[i].path);
      OnlyOnce(walk, i);
    }
  }

  lemma OnlyOnce(walk: seq<Item>, i: nat)
    requires IsWalk(walk) && i < |walk|
    ensures forall j :: 0 <= j < |walk| && walk[j].path == walk[i].path ==> j == i
  {
  }

  /** What makes a source capturable: nothing special outside the store and the media cache, the
      store's parent a directory, and in the store only object files in their places, whose
      objects are new and of the right digest or already there in the right size. */
  lemma CapturableMeans(objects: map<string, ObjectNode>, walk: seq<Item>)
    ensures Capturable(objects, walk) <==> forall i :: 0 <= i < |walk| ==> ItemCapturable(objects, walk[i])
  {
    hide Storable, Encodable, ItemCapturable;
    forall i | 0 <= i < |walk|
      ensures Storable(objects, walk[i]) && Encodable(walk[i]) <==> ItemCapturable(objects, walk[i])
    {
      ItemIsCapturable(objects, walk[i]);
    }
  }

  ghost predicate ItemCapturable(objects: map<string, ObjectNode>, item: Item) {
    if item.path == ".xdrive-blobs" then item.node.Directory?
    else if !InStore(item.path) then
      !item.node.Special? || ".xdrive-media/" <= item.path
    else
      item.node.Directory? || Unfinished(item.path)
      || (item.node.File? && exists h :: HexName(h) && item.path == ObjectPath(h) && Fits(objects, h, item.node.data))
  }

  predicate Fits(objects: map<string, ObjectNode>, h: string, data: Bytes) {
    if h in objects then objects[h].ObjectFile? && |objects[h].data| == |data| else ObjectName(data) == h
  }

  lemma ItemIsCapturable(objects: map<string, ObjectNode>, item: Item)
    ensures Storable(objects, item) && Encodable(item) <==> ItemCapturable(objects, item)
  {
    hide CasHash, IsAncestor, ObjectName, AtOrBelow, Staging, Storable, Encodable, ItemCapturable, InStore;
    if InStore(item.path) { StoredIsCapturable(objects, item); } else { OtherIsCapturable(objects, item); }
  }

  lemma OtherIsCapturable(objects: map<string, ObjectNode>, item: Item)
    requires !InStore(item.path)
    ensures Storable(objects, item) && Encodable(item) <==> ItemCapturable(objects, item)
  {
    hide CasHash, IsAncestor, ObjectName, AtOrBelow, Staging;
    InStoreIs(item.path);
    NotBelowStore(item.path);
    assert !(".xdrive-media/" <= ".xdrive-blobs");
    assert AtOrBelow(CAS_ROOT, item.path) == InStore(item.path);
  }

  lemma NotBelowStore(path: string)
    ensures !AtOrBelow(CAS_ROOT, path) ==> !IsAncestor(CAS_ROOT, path)
  {
  }

  lemma StoredIsCapturable(objects: map<string, ObjectNode>, item: Item)
    requires InStore(item.path)
    ensures Storable(objects, item) && Encodable(item) <==> ItemCapturable(objects, item)
  {
    hide CasHash, IsAncestor, ObjectName, AtOrBelow, Staging, InStore, ObjectPath, Unfinished;
    InStoreIs(item.path);
    InStoreHasSlash(item.path);
    UnfinishedIs(item);
    assert item.path != ".xdrive-blobs" by { NotTheParent(item.path); }
    if CasItem(item) && CasFile(item) {
      var h := CasHash(item.path).value;
      PlaceOf(item.path, h);
    }
    if h :| HexName(h) && item.path == ObjectPath(h) && item.node.File? && Fits(objects, h, item.node.data) {
      ObjectPathIs(h);
    }
  }

  lemma NotTheParent(path: string)
    requires InStore(path)
    ensures path != ".xdrive-blobs"
  {
    InStoreHasSlash(path);
  }

  lemma PlaceOf(path: string, h: string)
    requires CasHash(path) == Some(h)
    ensures HexName(h) && path == ObjectPath(h)
  {
    hide CasHash;
    CasHashMeaning(path, h);
    HexIsSha(h);
    ObjectPathIs(h);
  }

  /** A capture adds exactly the object files of the source that the store did not have. */
  lemma ObjectsAreOwed(objects: map<string, ObjectNode>, walk: seq<Item>, h: string)
    requires WellFormedSource(walk)
    ensures h in objects ==> h in StoreAll(objects, walk) && StoreAll(objects, walk)[h] == objects[h]
    ensures h !in objects && h in StoreAll(objects, walk) ==> HexName(h)
    ensures h !in objects && HexName(h) ==> (h in StoreAll(objects, walk) <==>
      exists i :: 0 <= i < |walk| && walk[i].path == ObjectPath(h) && walk[i].node.File?)
    ensures forall i :: 0 <= i < |walk| && HexName(h) && walk[i].path == ObjectPath(h) && walk[i].node.File? ==>
      h in StoreAll(objects, walk) && (h !in objects ==> StoreAll(objects, walk)[h] == ObjectFile(walk[i].node.data))
  {
    hide CasHash, ObjectPath, AtOrBelow, Encodable, BaseName, StoreAll, InStore;
    StoreAllMeaning(objects, walk, h);
    forall i | 0 <= i < |walk| && CasItem(walk[i]) && HashOf(walk[i]) == h
      ensures HexName(h) && walk[i].path == ObjectPath(h) && walk[i].node.File?
    {
      assert Takeable(walk[i]);
      PlaceOf(walk[i].path, h);
    }
    forall i | 0 <= i < |walk| && HexName(h) && walk[i].path == ObjectPath(h) && walk[i].node.File?
      ensures CasItem(walk[i]) && HashOf(walk[i]) == h && DataOf(walk[i]) == walk[i].node.data
    {
      ObjectPathIs(h);
      InStoreIs(walk[i].path);
      ObjectIsFinished(walk[i], h);
    }
    forall i, j | 0 <= i < |walk| && 0 <= j < |walk| && walk[i].path == walk[j].path ensures i == j {}
  }

  /** What the archive holds for an item outside the store and the media cache. */
  ghost predicate Archives(item: Item, e: TarEntry) {
    && !InStore(item.path) && !(".xdrive-media/" <= item.path)
    && match item.node
       case File(mode, data) => e == TarEntry(item.path, RegularEntry, mode, data)
       case Directory(mode) => e == TarEntry(item.path + "/", DirectoryEntry, mode, []) && item.path != ".xdrive-media"
       case Special(_) => false
  }

  /** The archive has exactly those members. */
  lemma ArchiveIs(walk: seq<Item>, e: TarEntry)
    requires WellFormedSource(walk)
    ensures e in ArchiveOf(walk) <==> exists i :: 0 <= i < |walk| && Archives(walk[i], e)
  {
    hide InStore, AtOrBelow, IsAncestor, Takeable, ArchiveOf;
    forall i | 0 <= i < |walk| ensures Archives(walk[i], e) <==> !Skipped(walk[i]) && e == EntryOf(walk[i]) {
      InStoreIs(walk[i].path);
      assert Encodable(walk[i]);
    }
    if e in ArchiveOf(walk) {
      var k :| 0 <= k < |ArchiveOf(walk)| && ArchiveOf(walk)[k] == e;
      var j := EntryFrom(walk, k);
      assert Archives(walk[j], e);
    }
    if i :| 0 <= i < |walk| && Archives(walk[i], e) {
      var k := EntryFor(walk, i);
      assert ArchiveOf(walk)[k] == e;
    }
  }
}
