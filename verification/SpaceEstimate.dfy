/** The space estimate made before a capture, and why it is an upper bound. */
module SpaceEstimate {
  import opened Wrappers
  import opened Content
  import opened LegacyArchive
  import opened SourceTree
  import opened Capture
  import opened Repository
  import opened RetentionPlan
  import opened Sums
  import RoundTrip

  const DIRECTORY_RESERVE := 1024
  const FILE_RESERVE := 2048

  /** The object of a source item would be new to the store. */
  predicate IsNew(objects: map<string, ObjectNode>, item: Item) {
    CasItem(item) && HashOf(item) !in objects
  }

  /** What the estimate adds for one item. */
  function CostOf(objects: map<string, ObjectNode>, item: Item): nat {
    if item.path == CAS_ROOT then 0
    else if IsAncestor(CAS_ROOT, item.path) then
      if IsNew(objects, item) then |DataOf(item)| else 0
    else if Skipped(item) then 0
    else if item.node.File? then |item.node.data| + FILE_RESERVE
    else DIRECTORY_RESERVE
  }

  /** What the estimate accepts. It refuses symbolic links even where capture would pass over
      them, takes the object root itself as it comes, and reads no content. */
  predicate Estimable(objects: map<string, ObjectNode>, item: Item) {
    if Skipped(item) && !AtOrBelow(CAS_ROOT, item.path) then true
    else if item.node.Special? && item.node.symlink then false
    else if item.path == CAS_ROOT then true
    else if AtOrBelow(CAS_ROOT, item.path) then
      CasItem(item) ==>
        && CasFile(item)
        && (HashOf(item) in objects ==>
          objects[HashOf(item)].ObjectFile? && |objects[HashOf(item)].data| == |DataOf(item)|)
    else !item.node.Special?
  }

  /** The item is a regular file at the place of an object that the store does not have. */
  ghost predicate NewObject(objects: map<string, ObjectNode>, item: Item, h: string) {
    RoundTrip.HexName(h) && item.path == RoundTrip.ObjectPath(h) && item.node.File? && h !in objects
  }

  /** What an item costs, by its path: a new object its bytes, a file outside the object root 2 KiB
      more than its bytes, any other item there 1 KiB, and nothing what is not archived. */
  lemma CostMeaning(objects: map<string, ObjectNode>, item: Item)
    requires Estimable(objects, item)
    ensures forall h :: NewObject(objects, item, h) ==> CostOf(objects, item) == |item.node.data|
    ensures ".xdrive-blobs/sha256/" <= item.path && (forall h :: !NewObject(objects, item, h)) ==>
      CostOf(objects, item) == 0
    ensures !(".xdrive-blobs/sha256/" <= item.path) ==>
      CostOf(objects, item) ==
        if item.path == ".xdrive-blobs/sha256" || ".xdrive-media/" <= item.path then 0
        else if item.node.File? then |item.node.data| + 2048
        else if item.path == ".xdrive-media" && item.node.Directory? then 0
        else 1024
  {
    hide CostOf, Estimable, IsAncestor, RoundTrip.HexName, RoundTrip.ObjectPath;
    BelowRoot(item.path);
    forall h | NewObject(objects, item, h) ensures CostOf(objects, item) == |item.node.data| {
      NewObjectCost(objects, item, h);
    }
    if IsAncestor(CAS_ROOT, item.path) {
      if CostOf(objects, item) != 0 { var h := CostsAsNew(objects, item); }
    } else {
      OutsideCost(objects, item);
    }
  }

  lemma BelowRoot(path: string)
    ensures ".xdrive-blobs/sha256/" <= path <==> IsAncestor(CAS_ROOT, path)
    ensures ".xdrive-media/" <= path <==> IsAncestor(MEDIA, path)
    ensures IsAncestor(CAS_ROOT, path) ==> path != CAS_ROOT
  {
    RoundTrip.PrefixIs(".xdrive-blobs/sha256", path);
    RoundTrip.PrefixIs(".xdrive-media", path);
  }

  lemma NewObjectCost(objects: map<string, ObjectNode>, item: Item, h: string)
    requires NewObject(objects, item, h)
    ensures CostOf(objects, item) == |item.node.data|
  {
    hide RoundTrip.HexName, RoundTrip.ObjectPath, CasHash, Staging, IsAncestor;
    RoundTrip.ObjectPathIs(h);
    RoundTrip.ObjectIsFinished(item, h);
    ObjectBelow(h);
    BelowRoot(item.path);
  }

  lemma CostsAsNew(objects: map<string, ObjectNode>, item: Item) returns (h: string)
    requires Estimable(objects, item) && IsAncestor(CAS_ROOT, item.path) && CostOf(objects, item) != 0
    ensures NewObject(objects, item, h)
  {
    hide RoundTrip.HexName, RoundTrip.ObjectPath, CasHash, Staging, IsAncestor;
    BelowRoot(item.path);
    h := HashOf(item);
    CasHashMeaning(item.path, h);
    RoundTrip.HexIsSha(h);
    RoundTrip.ObjectPathIs(h);
    assert RoundTrip.ObjectPath(h) == CasPath(h);
  }

  lemma OutsideCost(objects: map<string, ObjectNode>, item: Item)
    requires Estimable(objects, item) && !IsAncestor(CAS_ROOT, item.path)
    ensures CostOf(objects, item) ==
      if item.path == ".xdrive-blobs/sha256" || IsAncestor(MEDIA, item.path) then 0
      else if item.node.File? then |item.node.data| + 2048
      else if item.path == ".xdrive-media" && item.node.Directory? then 0
      else 1024
  {
    hide IsAncestor;
  }

  lemma ObjectBelow(h: string)
    requires RoundTrip.HexName(h)
    ensures IsAncestor(CAS_ROOT, RoundTrip.ObjectPath(h))
  {
    RoundTrip.InStoreIs(RoundTrip.ObjectPath(h));
    RoundTrip.ObjectPathIs(h);
    assert |RoundTrip.ObjectPath(h)| > 64;
  }

  function EstimateOf(objects: map<string, ObjectNode>, walk: seq<Item>): nat {
    if walk == [] then 0 else EstimateOf(objects, walk[..|walk| - 1]) + CostOf(objects, walk[|walk| - 1])
  }

  lemma {:induction false} EstimateGrows(objects: map<string, ObjectNode>, walk: seq<Item>, n: nat)
    requires n <= |walk|
    ensures EstimateOf(objects, walk[..n]) <= EstimateOf(objects, walk)
  {
    if n < |walk| {
      EstimateGrows(objects, walk[..|walk| - 1], n);
      assert walk[..|walk| - 1][..n] == walk[..n];
    } else {
      assert walk[..n] == walk;
    }
  }

  lemma EighthChar(q: string, path: string)
    requires AtOrBelow(q, path) && |q| > 8
    ensures |path| > 8 && path[8] == q[8]
  {
    assert path[..|q|] == q;
  }

  lemma MediaIsNotBlobs(path: string)
    requires AtOrBelow(MEDIA, path)
    ensures !AtOrBelow(CAS_ROOT, path)
  {
    EighthChar(MEDIA, path);
    if AtOrBelow(CAS_ROOT, path) {
      EighthChar(CAS_ROOT, path);
      assert false;
    }
  }

  /** One visit: refused, or the bytes to add. */
  method Visit(objects: map<string, ObjectNode>, item: Item) returns (bytes: Option<int>)
    ensures bytes.Some? <==> Estimable(objects, item)
    ensures bytes.Some? ==> bytes.value == CostOf(objects, item)
  {
    if IsAncestor(MEDIA, item.path) || (item.path == MEDIA && item.node.Directory?) {
      MediaIsNotBlobs(item.path);
      return Some(0);
    }
    if item.node.Special? && item.node.symlink {
      return None;
    }
    if item.path == CAS_ROOT {
      return Some(0);
    }
    if IsAncestor(CAS_ROOT, item.path) {
      bytes := VisitObject(objects, item);
      return;
    }
    if item.node.Directory? {
      return Some(DIRECTORY_RESERVE);
    }
    if !item.node.File? {
      return None;
    }
    bytes := Some(|item.node.data| + FILE_RESERVE);
  }

  method VisitObject(objects: map<string, ObjectNode>, item: Item) returns (bytes: Option<int>)
    requires IsAncestor(CAS_ROOT, item.path) && !(item.node.Special? && item.node.symlink)
    ensures bytes.Some? <==> Estimable(objects, item)
    ensures bytes.Some? ==> bytes.value == CostOf(objects, item)
  {
    if item.node.Directory? || Staging(item) {
      return Some(0);
    }
    if CasHash(item.path) == None || !item.node.File? {
      return None;
    }
    var hash := CasHash(item.path).value;
    if hash !in objects {
      return Some(|item.node.data|);
    }
    if !objects[hash].ObjectFile? || |objects[hash].data| != |item.node.data| {
      return None;
    }
    bytes := Some(0);
  }

  ghost predicate EstimateSucceeds(objects: map<string, ObjectNode>, walk: seq<Item>) {
    (forall i :: 0 <= i < |walk| ==> Estimable(objects, walk[i])) && EstimateOf(objects, walk) <= MAX_INT64
  }

  /** `estimateIncrementalBytes`: the sum, unless an item is refused or the sum overflows. */
  method EstimateIncrementalBytes(objects: map<string, ObjectNode>, walk: seq<Item>) returns (r: Option<int>)
    requires IsWalk(walk)
    ensures r.Some? <==> EstimateSucceeds(objects, walk)
    ensures r.Some? ==> r.value == EstimateOf(objects, walk)
  {
    hide Estimable, CostOf;
    var needed: int := 0;
    for i := 0 to |walk|
      invariant needed == EstimateOf(objects, walk[..i]) <= MAX_INT64
      invariant forall j :: 0 <= j < i ==> Estimable(objects, walk[j])
    {
      var bytes := Visit(objects, walk[i]);
      if bytes == None {
        return None;
      }
      assert walk[..i + 1][..i] == walk[..i];
      EstimateGrows(objects, walk, i + 1);
      var sum := AddBytes(needed, bytes.value);
      if sum == None {
        return None;
      }
      needed := sum.value;
    }
    assert walk[..|walk|] == walk;
    r := Some(needed);
  }

  // ----- the bound -----

  /** The bytes of the objects that a capture creates. */
  function CreatedBytes(objects: map<string, ObjectNode>, walk: seq<Item>): nat {
    var after := StoreAll(objects, walk);
    BytesOf(ObjectSizes(after), after.Keys - objects.Keys)
  }

  lemma CreatedStep(objects: map<string, ObjectNode>, walk: seq<Item>, k: nat)
    requires IsWalk(walk) && k < |walk| && forall i :: 0 <= i <= k ==> Takeable(walk[i])
    ensures CreatedBytes(objects, walk[..k + 1]) ==
      CreatedBytes(objects, walk[..k]) + if IsNew(objects, walk[k]) then |DataOf(walk[k])| else 0
  {
    hide CasItem, HashOf, DataOf, CasFile, BytesOf;
    assert walk[..k + 1][..k] == walk[..k];
    var before, after := StoreAll(objects, walk[..k]), StoreAll(objects, walk[..k + 1]);
    if CasItem(walk[k]) {
      StorableLater(objects, walk, k);
      var h := HashOf(walk[k]);
      if h !in objects {
        var created := before.Keys - objects.Keys;
        assert after.Keys - objects.Keys == created + {h};
        BytesWith(ObjectSizes(before), ObjectSizes(after), created, h);
      }
    }
  }

  /** What the estimate adds for an archived item beyond its share of the archive. */
  function Slack(item: Item): nat {
    if Skipped(item) then 0
    else if item.node.File? then |item.node.data| + FILE_RESERVE - 512 - Padded(|item.node.data|)
    else DIRECTORY_RESERVE - 512
  }

  function SlackOf(walk: seq<Item>): nat {
    if walk == [] then 0 else SlackOf(walk[..|walk| - 1]) + Slack(walk[|walk| - 1])
  }

  /** An item costs exactly its new object, its share of the archive, and its slack. */
  lemma CostIs(objects: map<string, ObjectNode>, item: Item)
    requires Takeable(item) && Encodable(item)
    ensures CostOf(objects, item) ==
      (if IsNew(objects, item) then |DataOf(item)| else 0)
        + (if Skipped(item) then 0 else 512 + Padded(|EntryOf(item).data|)) + Slack(item)
    ensures IsNew(objects, item) ==> Skipped(item)
  {
    if AtOrBelow(MEDIA, item.path) { MediaIsNotBlobs(item.path); }
  }

  lemma MembersStep(walk: seq<Item>, k: nat)
    requires k < |walk|
    ensures MembersSize(ArchiveOf(walk[..k + 1])) ==
      MembersSize(ArchiveOf(walk[..k])) + if Skipped(walk[k]) then 0 else 512 + Padded(|EntryOf(walk[k]).data|)
  {
    hide Skipped, EntryOf, Padded;
    assert walk[..k + 1][..k] == walk[..k];
    var before := ArchiveOf(walk[..k]);
    assert before + [] == before;
    assert (before + [EntryOf(walk[k])])[..|before|] == before;
  }

  lemma {:induction false} EstimateIs(objects: map<string, ObjectNode>, walk: seq<Item>, k: nat)
    requires IsWalk(walk) && k <= |walk| && forall i :: 0 <= i < |walk| ==> Takeable(walk[i]) && Encodable(walk[i])
    ensures EstimateOf(objects, walk[..k]) ==
      CreatedBytes(objects, walk[..k]) + MembersSize(ArchiveOf(walk[..k])) + SlackOf(walk[..k])
  {
    hide Takeable, Encodable, Skipped, EntryOf, Padded, CostOf, IsNew, DataOf, CreatedBytes, MembersSize, Slack;
    if k == 0 {
      NothingCreated(objects);
      assert walk[..0] == [];
    } else {
      EstimateIs(objects, walk, k - 1);
      CreatedStep(objects, walk, k - 1);
      MembersStep(walk, k - 1);
      CostIs(objects, walk[k - 1]);
      assert walk[..k][..k - 1] == walk[..k - 1];
    }
  }

  lemma NothingCreated(objects: map<string, ObjectNode>)
    ensures CreatedBytes(objects, []) == 0 && MembersSize([]) == 0
  {
    assert objects.Keys - objects.Keys == {};
  }

  lemma {:induction false} SlackCovers(walk: seq<Item>)
    ensures SlackOf(walk) >= 512 * |ArchiveOf(walk)|
  {
    if walk != [] { SlackCovers(walk[..|walk| - 1]); }
  }

  lemma CapturableParts(objects: map<string, ObjectNode>, walk: seq<Item>)
    requires Capturable(objects, walk)
    ensures forall i :: 0 <= i < |walk| ==> Takeable(walk[i]) && Encodable(walk[i])
  {
    hide Takeable, Encodable, CasItem, CanStore;
    forall i | 0 <= i < |walk| ensures Takeable(walk[i]) && Encodable(walk[i]) { assert Storable(objects, walk[i]); }
  }

  /** The estimate, with the archive's trailer, covers the objects that the capture creates and
      the archive it writes; each archived item leaves at least 512 bytes over. */
  lemma EstimateCovers(objects: map<string, ObjectNode>, walk: seq<Item>)
    requires IsWalk(walk) && Capturable(objects, walk)
    ensures EstimateOf(objects, walk) + 1024 >=
      CreatedBytes(objects, walk) + TarSize(ArchiveOf(walk)) + 512 * |ArchiveOf(walk)|
  {
    hide Takeable, Encodable, Capturable, ArchiveOf;
    CapturableParts(objects, walk);
    assert walk[..|walk|] == walk;
    EstimateIs(objects, walk, |walk|);
    SlackCovers(walk);
  }

  ghost predicate ArchivesFile(walk: seq<Item>) {
    exists i :: 0 <= i < |walk| && !Skipped(walk[i]) && walk[i].node.File?
  }

  ghost predicate Archives(walk: seq<Item>) {
    exists i :: 0 <= i < |walk| && !Skipped(walk[i])
  }

  ghost predicate ArchivesTwo(walk: seq<Item>) {
    exists i, j :: 0 <= i < j < |walk| && !Skipped(walk[i]) && !Skipped(walk[j])
  }

  lemma OneMoreItem(walk: seq<Item>)
    requires walk != []
    ensures var k := |walk| - 1; var last := walk[k];
      && (Archives(walk) <==> Archives(walk[..k]) || !Skipped(last))
      && (ArchivesFile(walk) <==> ArchivesFile(walk[..k]) || (!Skipped(last) && last.node.File?))
      && (ArchivesTwo(walk) <==> ArchivesTwo(walk[..k]) || (!Skipped(last) && Archives(walk[..k])))
  {
    hide Skipped;
    var k := |walk| - 1;
    assert forall i :: 0 <= i < k ==> walk[..k][i] == walk[i];
    if Archives(walk[..k]) {
      var i :| 0 <= i < k && !Skipped(walk[..k][i]);
      assert !Skipped(walk[i]);
    }
    if ArchivesTwo(walk[..k]) {
      var i, j :| 0 <= i < j < k && !Skipped(walk[..k][i]) && !Skipped(walk[..k][j]);
      assert !Skipped(walk[i]) && !Skipped(walk[j]);
    }
    if ArchivesFile(walk[..k]) {
      var i :| 0 <= i < k && !Skipped(walk[..k][i]) && walk[..k][i].node.File?;
      assert !Skipped(walk[i]);
    }
  }

  /** A directory leaves 512 bytes over, a file at least 1025. */
  lemma {:induction false} SlackMeaning(walk: seq<Item>)
    ensures ArchivesFile(walk) || ArchivesTwo(walk) ==> SlackOf(walk) >= 1024
    ensures !ArchivesFile(walk) && !ArchivesTwo(walk) ==> SlackOf(walk) == if Archives(walk) then 512 else 0
  {
    hide Skipped, ArchivesFile, Archives, ArchivesTwo;
    if walk == [] {
      NothingArchived();
    } else {
      var k := |walk| - 1;
      SlackMeaning(walk[..k]);
      OneMoreItem(walk);
    }
  }

  lemma NothingArchived()
    ensures !ArchivesFile([]) && !ArchivesTwo([]) && !Archives([])
  {
  }

  /** Without the trailer the estimate still covers the capture exactly if the archive has a
      regular file, or at least two members. */
  lemma CoversWithoutTrailer(objects: map<string, ObjectNode>, walk: seq<Item>)
    requires IsWalk(walk) && Capturable(objects, walk)
    ensures EstimateOf(objects, walk) >= CreatedBytes(objects, walk) + TarSize(ArchiveOf(walk)) <==>
      ArchivesFile(walk) || ArchivesTwo(walk)
  {
    hide Takeable, Encodable, Capturable, ArchivesFile, ArchivesTwo, Archives;
    CapturableParts(objects, walk);
    assert walk[..|walk|] == walk;
    EstimateIs(objects, walk, |walk|);
    SlackMeaning(walk);
  }

  /** Two sources that it does not cover: one with nothing in it, and one whose files are all in
      the object store. */
  lemma TooSmall(objects: map<string, ObjectNode>, mode: nat)
    ensures EstimateOf(objects, []) < CreatedBytes(objects, []) + TarSize(ArchiveOf([]))
    ensures var walk := [Item(BLOBS, Directory(mode))];
      EstimateOf(objects, walk) < CreatedBytes(objects, walk) + TarSize(ArchiveOf(walk))
  {
    hide EstimateOf, CreatedBytes, ArchiveOf;
    var none: seq<Item> := [];
    NothingArchived();
    CoversWithoutTrailer(objects, none);
    var walk := [Item(BLOBS, Directory(mode))];
    OnlyBlobs(objects, mode);
    CoversWithoutTrailer(objects, walk);
  }

  lemma OnlyBlobs(objects: map<string, ObjectNode>, mode: nat)
    ensures var walk := [Item(BLOBS, Directory(mode))];
      IsWalk(walk) && Capturable(objects, walk) && !ArchivesFile(walk) && !ArchivesTwo(walk)
  {
    var walk := [Item(BLOBS, Directory(mode))];
    assert !AtOrBelow(CAS_ROOT, BLOBS);
    BlobsIsProper();
  }

  lemma BlobsIsProper()
    ensures ProperPath(BLOBS) && forall q :: !IsAncestor(q, BLOBS)
  {
    forall q ensures !IsAncestor(q, BLOBS) {
      assert forall i :: 0 <= i < |BLOBS| ==> BLOBS[i] != '/';
    }
    SplitPiece(BLOBS);
  }

  lemma RootNotStaging(item: Item)
    ensures item.path == CAS_ROOT ==> !Staging(item) && CasHash(item.path) == None
  {
    var k := LastSlash(CAS_ROOT);
    assert CAS_ROOT[13] == '/';
    assert forall i :: 13 < i < 20 ==> CAS_ROOT[i] != '/';
    assert k == 13;
  }

  lemma MediaIsAncestor(path: string)
    ensures IsAncestor(MEDIA, path) || path == MEDIA <==> AtOrBelow(MEDIA, path)
    ensures IsAncestor(CAS_ROOT, path) ==> path != CAS_ROOT
  {
  }

  predicate LinkAmongStaging(item: Item) {
    IsAncestor(CAS_ROOT, item.path) && item.node.Special? && item.node.symlink
  }

  /** What capture takes, the estimate takes, unless a link hides among the uploads. */
  lemma CapturableIsEstimable(objects: map<string, ObjectNode>, item: Item)
    requires Storable(objects, item) && Encodable(item)
    ensures Estimable(objects, item) <==> !LinkAmongStaging(item)
  {
    hide IsAncestor, CasHash, HashOf, DataOf, Staging, ObjectName;
    MediaIsAncestor(item.path);
    RootNotStaging(item);
    if AtOrBelow(MEDIA, item.path) { MediaIsNotBlobs(item.path); }
  }

  /** A whole source that capture takes: the estimate takes it too, exactly unless a symbolic
      link hides among its uploads or the sum passes 2^63-1. */
  lemma SourceIsEstimable(objects: map<string, ObjectNode>, walk: seq<Item>)
    requires Capturable(objects, walk)
    ensures EstimateSucceeds(objects, walk) <==>
      (forall i :: 0 <= i < |walk| ==> !LinkAmongStaging(walk[i])) && EstimateOf(objects, walk) <= MAX_INT64
  {
    hide EstimateOf, Storable, Encodable, Estimable, LinkAmongStaging;
    forall i | 0 <= i < |walk| ensures Estimable(objects, walk[i]) <==> !LinkAmongStaging(walk[i]) {
      CapturableIsEstimable(objects, walk[i]);
    }
  }

  /** The link that the estimate refuses and capture passes over. */
  lemma LinkAmongUploads(objects: map<string, ObjectNode>)
    ensures var item := Item(CAS_ROOT + "/" + UPLOAD, Special(true));
      Storable(objects, item) && Encodable(item) && !Estimable(objects, item)
  {
    var item := Item(CAS_ROOT + "/" + UPLOAD, Special(true));
    BaseNameAfter(CAS_ROOT, UPLOAD);
    assert IsAncestor(CAS_ROOT, item.path);
    CapturableIsEstimable(objects, item);
  }
}
