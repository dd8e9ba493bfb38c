/** The tree that a capture copies, as one directory walk delivers it, and what a backup of
    it must give back. */
module SourceTree {
  import opened Wrappers
  import opened Content
  import opened LegacyArchive

  /** Anything that is neither a regular file nor a directory is special: links, sockets, devices. */
  datatype Node = File(mode: nat, data: Bytes) | Directory(mode: nat) | Special(symlink: bool)

  datatype Item = Item(path: string, node: Node)

  const BLOBS := ".xdrive-blobs"
  const MEDIA := ".xdrive-media"
  const UPLOAD := ".xdrive-upload-"

  /** A walk of a real tree: distinct proper paths, a directory before what it holds, and file
      sizes that fit a file system. */
  ghost predicate IsWalk(walk: seq<Item>) {
    && (forall i :: 0 <= i < |walk| ==> ProperPath(walk[i].path))
    && (forall i, j :: 0 <= i < j < |walk| ==> walk[i].path != walk[j].path)
    && (forall i, q :: 0 <= i < |walk| && IsAncestor(q, walk[i].path) ==> DirectoryBefore(walk, i, q))
    && (forall i :: 0 <= i < |walk| && walk[i].node.File? ==> |walk[i].node.data| <= MAX_INT64)
  }

  ghost predicate DirectoryBefore(walk: seq<Item>, i: int, q: string) {
    exists j :: 0 <= j < i && j < |walk| && walk[j].path == q && walk[j].node.Directory?
  }

  function BaseName(p: string): string {
    p[LastSlash(p) + 1..]
  }

  lemma BaseNameAfter(head: string, base: string)
    requires '/' !in base
    ensures BaseName(head + "/" + base) == base
  {
    var p := head + "/" + base;
    var k := LastSlash(p);
    assert forall i :: |head| < i < |p| ==> p[i] == base[i - |head| - 1];
    assert p[|head|] == '/';
    assert k == |head|;
  }

  // ----- the object tree -----

  function CasPath(hash: string): string
    requires ShaValid(hash)
  {
    CAS_ROOT + "/" + hash[..2] + "/" + hash
  }

  /** The hash that a path below the object root spells, if it has the one accepted shape. */
  function CasHash(path: string): (r: Option<string>)
    ensures r.Some? ==> ShaValid(r.value)
  {
    if !IsAncestor(CAS_ROOT, path) then None
    else
      var elems := Split(path[|CAS_ROOT| + 1..]);
      if |elems| == 2 && ShaValid(elems[1]) && elems[0] == elems[1][..2] then Some(elems[1]) else None
  }

  lemma HexHasNoSlash(h: string)
    requires ShaValid(h)
    ensures '/' !in h && '/' !in h[..2]
  {
  }

  lemma CasHashMeaning(path: string, h: string)
    ensures CasHash(path) == Some(h) <==> ShaValid(h) && path == CasPath(h)
  {
    if IsAncestor(CAS_ROOT, path) {
      var rel := path[|CAS_ROOT| + 1..];
      assert path == CAS_ROOT + "/" + rel;
      if CasHash(path) == Some(h) {
        JoinSplit(rel);
        assert Join(Split(rel)) == h[..2] + "/" + h;
      }
    }
    if ShaValid(h) && path == CasPath(h) {
      HexHasNoSlash(h);
      var rel := h[..2] + "/" + h;
      assert path == CAS_ROOT + "/" + rel;
      assert path[|CAS_ROOT| + 1..] == rel;
      SplitConcat(h[..2], h);
      SplitPiece(h);
    }
  }

  /** Incomplete uploads are never part of a snapshot. */
  predicate Staging(item: Item) {
    UPLOAD <= BaseName(item.path)
  }

  /** What the walk of the object root looks at. */
  predicate CasItem(item: Item) {
    AtOrBelow(CAS_ROOT, item.path) && !item.node.Directory? && !Staging(item)
  }

  /** An object file that the walk can take: the right shape, and a regular file. */
  predicate CasFile(item: Item) {
    CasHash(item.path).Some? && item.node.File?
  }

  /** What the archive leaves out: the object root, and the media cache directory. */
  predicate Skipped(item: Item) {
    || AtOrBelow(CAS_ROOT, item.path)
    || IsAncestor(MEDIA, item.path)
    || (item.path == MEDIA && item.node.Directory?)
  }

  // ----- what a restore must give back -----

  datatype Placed = PlacedFile(mode: nat, data: Bytes) | PlacedDirectory

  function Permissions(mode: nat): nat {
    mode % 512
  }

  const PRIVATE := 384

  /** A regular file comes back as it was; object files come back private. */
  predicate Returns(item: Item) {
    item.node.File? && (if AtOrBelow(CAS_ROOT, item.path) then !Staging(item) else !Skipped(item))
  }

  function Returned(item: Item): Placed
    requires item.node.File?
  {
    PlacedFile(if AtOrBelow(CAS_ROOT, item.path) then PRIVATE else Permissions(item.node.mode), item.node.data)
  }

  /** The files that a restore of this walk must produce. */
  function FilesOf(walk: seq<Item>): map<string, Placed> {
    if walk == [] then map[]
    else
      var last := walk[|walk| - 1];
      var before := FilesOf(walk[..|walk| - 1]);
      if Returns(last) then before[last.path := Returned(last)] else before
  }

  lemma {:induction false} FilesOfMeaning(walk: seq<Item>, p: string)
    requires forall i, j :: 0 <= i < j < |walk| ==> walk[i].path != walk[j].path
    ensures p in FilesOf(walk) <==> exists i :: 0 <= i < |walk| && walk[i].path == p && Returns(walk[i])
    ensures forall i :: 0 <= i < |walk| && walk[i].path == p && Returns(walk[i]) ==>
      p in FilesOf(walk) && FilesOf(walk)[p] == Returned(walk[i])
  {
    hide Returns, Returned;
    if walk != [] {
      var k := |walk| - 1;
      FilesOfMeaning(walk[..k], p);
      if i :| 0 <= i < k && walk[..k][i].path == p && Returns(walk[..k][i]) {
        assert walk[i].path == p;
      }
    }
  }

  lemma WalkPrefix(walk: seq<Item>, k: nat)
    requires IsWalk(walk) && k <= |walk|
    ensures IsWalk(walk[..k])
  {
    forall i, q | 0 <= i < k && IsAncestor(q, walk[..k][i].path) ensures DirectoryBefore(walk[..k], i, q) {
      assert DirectoryBefore(walk, i, q);
      var j :| 0 <= j < i && walk[j].path == q && walk[j].node.Directory?;
      assert walk[..k][j] == walk[j];
    }
  }
}
