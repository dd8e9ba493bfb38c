/** Capturing a generation: object files are copied into the store unless it has them, and
    everything else goes into one archive. */
module Capture {
  import opened Wrappers
  import opened Content
  import opened LegacyArchive
  import opened SourceTree
  import opened Repository
  import opened Journal
  import opened Power
  import ObjectIndex

  type Row = ObjectIndex.Row

  // ----- the archive -----

  function EntryOf(item: Item): TarEntry {
    match item.node
    case File(mode, data) => TarEntry(item.path, RegularEntry, mode, data)
    case Directory(mode) => TarEntry(item.path + "/", DirectoryEntry, mode, [])
    case Special(_) => TarEntry(item.path, OtherEntry, 0, [])
  }

  function ArchiveOf(walk: seq<Item>): seq<TarEntry> {
    if walk == [] then []
    else
      var last := walk[|walk| - 1];
      ArchiveOf(walk[..|walk| - 1]) + if Skipped(last) then [] else [EntryOf(last)]
  }

  predicate Encodable(item: Item) {
    Skipped(item) || !item.node.Special?
  }

  /** The directories the walk does not descend into, as far as they were met. */
  ghost predicate Pruned(walk: seq<Item>, i: nat, pruned: set<string>)
    requires i <= |walk|
  {
    && (forall q :: q in pruned ==> q == CAS_ROOT || q == MEDIA)
    && (CAS_ROOT in pruned <==> exists j :: 0 <= j < i && walk[j].path == CAS_ROOT)
    && (MEDIA in pruned <==> exists j :: 0 <= j < i && walk[j].path == MEDIA && walk[j].node.Directory?)
  }

  /** Not descending skips exactly what the archive leaves out. */
  lemma PrunedSkips(walk: seq<Item>, i: nat, pruned: set<string>)
    requires IsWalk(walk) && i < |walk| && Pruned(walk, i, pruned)
    ensures var item := walk[i];
      Skipped(item) <==>
        item.path == CAS_ROOT || (item.path == MEDIA && item.node.Directory?)
        || (IsAncestor(CAS_ROOT, item.path) && CAS_ROOT in pruned) || (IsAncestor(MEDIA, item.path) && MEDIA in pruned)
  {
    if IsAncestor(CAS_ROOT, walk[i].path) { assert DirectoryBefore(walk, i, CAS_ROOT); }
    if IsAncestor(MEDIA, walk[i].path) { assert DirectoryBefore(walk, i, MEDIA); }
  }

  /** `encodeTarLegacy`. */
  method EncodeTarLegacy(walk: seq<Item>) returns (r: Option<seq<TarEntry>>)
    requires IsWalk(walk)
    ensures r.Some? <==> forall i :: 0 <= i < |walk| ==> Encodable(walk[i])
    ensures r.Some? ==> r.value == ArchiveOf(walk)
  {
    hide Skipped;
    var pruned: set<string> := {};
    var entries: seq<TarEntry> := [];
    for i := 0 to |walk|
      invariant Pruned(walk, i, pruned)
      invariant forall j :: 0 <= j < i ==> Encodable(walk[j])
      invariant entries == ArchiveOf(walk[..i])
    {
      var item := walk[i];
      assert walk[..i + 1][..i] == walk[..i];
      PrunedSkips(walk, i, pruned);
      if item.path == CAS_ROOT || (item.path == MEDIA && item.node.Directory?) {
        pruned := pruned + {item.path};
      } else if !(IsAncestor(CAS_ROOT, item.path) && CAS_ROOT in pruned)
        && !(IsAncestor(MEDIA, item.path) && MEDIA in pruned) {
        if item.node.Special? {
          return None;
        }
        entries := entries + [EntryOf(item)];
      }
    }
    assert walk[..|walk|] == walk;
    r := Some(entries);
  }

  lemma LocalNameOf(item: Item)
    requires ProperPath(item.path)
    ensures LocalName(EntryOf(item)) == item.path
  {
    var p := item.path;
    assert ProperName(Split(p)[0]);
    if p != "" && p[|p| - 1] == '/' {
      assert p == p[..|p| - 1] + "/";
      SlashEnds(p[..|p| - 1]);
      assert false;
    }
  }

  lemma SlashEnds(a: string)
    ensures !ProperPath(a + "/")
  {
    assert a + "/" + "" == a + "/";
    SplitAtSlash(a, "");
    var parts := Split(a + "/");
    assert !ProperName(parts[|parts| - 1]);
  }

  lemma ItemEntryOk(item: Item)
    requires ProperPath(item.path) && !Skipped(item) && !item.node.Special?
    ensures EntryOk(EntryOf(item))
  {
    LocalNameOf(item);
    EntryOkMeaning(EntryOf(item));
  }

  /** Every member of the archive is one of the walk's items. */
  lemma {:induction false} EntryFrom(walk: seq<Item>, i: nat) returns (j: nat)
    requires i < |ArchiveOf(walk)|
    ensures j < |walk| && !Skipped(walk[j]) && ArchiveOf(walk)[i] == EntryOf(walk[j])
  {
    var k := |walk| - 1;
    if i < |ArchiveOf(walk[..k])| {
      j := EntryFrom(walk[..k], i);
    } else {
      j := k;
    }
  }

  /** ... and every item kept out of the store and the cache is a member. */
  lemma {:induction false} EntryFor(walk: seq<Item>, j: nat) returns (i: nat)
    requires j < |walk| && !Skipped(walk[j])
    ensures i < |ArchiveOf(walk)| && ArchiveOf(walk)[i] == EntryOf(walk[j])
  {
    var k := |walk| - 1;
    if j < k {
      i := EntryFor(walk[..k], j);
    } else {
      i := |ArchiveOf(walk[..k])|;
    }
  }

  /** What capture archives, the walker accepts. */
  lemma {:induction false} ArchiveAcceptable(walk: seq<Item>)
    requires IsWalk(walk) && forall i :: 0 <= i < |walk| ==> Encodable(walk[i])
    ensures Acceptable(ArchiveOf(walk))
  {
    hide Skipped, IsAncestor, EntryOk, LocalName, EntryOf;
    if walk != [] {
      var k := |walk| - 1;
      var before, item := ArchiveOf(walk[..k]), walk[k];
      WalkPrefix(walk, k);
      ArchiveAcceptable(walk[..k]);
      if !Skipped(item) {
        ItemEntryOk(item);
        LocalNameOf(item);
        AcceptableStep(before, EntryOf(item));
        forall i | 0 <= i < |before| ensures NoConflict(before[i], EntryOf(item)) {
          var j := EntryFrom(walk[..k], i);
          NoItemConflict(walk, j, k);
        }
      } else {
        assert before + [] == before;
      }
    }
  }

  ghost predicate NoConflict(b: TarEntry, e: TarEntry) {
    && LocalName(b) != LocalName(e)
    && (b.kind.RegularEntry? ==> !IsAncestor(LocalName(b), LocalName(e)))
    && !IsAncestor(LocalName(e), LocalName(b))
  }

  lemma AncestorBefore(walk: seq<Item>, i: nat, q: string) returns (j: nat)
    requires IsWalk(walk) && i < |walk| && IsAncestor(q, walk[i].path)
    ensures j < i && walk[j].path == q && walk[j].node.Directory?
  {
    assert DirectoryBefore(walk, i, q);
    j :| j < i && walk[j].path == q && walk[j].node.Directory?;
  }

  lemma NoItemConflict(walk: seq<Item>, j: nat, k: nat)
    requires IsWalk(walk) && j < k < |walk|
    ensures NoConflict(EntryOf(walk[j]), EntryOf(walk[k]))
  {
    hide LocalName, IsAncestor;
    LocalNameOf(walk[j]);
    LocalNameOf(walk[k]);
    if IsAncestor(walk[j].path, walk[k].path) {
      var i := AncestorBefore(walk, k, walk[j].path);
    }
    if IsAncestor(walk[k].path, walk[j].path) {
      var i := AncestorBefore(walk, j, walk[k].path);
      assert false;
    }
  }

  // ----- the store -----

  function HashOf(item: Item): string {
    if CasHash(item.path).Some? then CasHash(item.path).value else ""
  }

  function DataOf(item: Item): Bytes {
    if item.node.File? then item.node.data else []
  }

  /** An object already stored must have the same size, and is not read again; a new one
      must have the digest that its name claims. */
  predicate CanStore(objects: map<string, ObjectNode>, hash: string, data: Bytes) {
    if hash in objects then objects[hash].ObjectFile? && |objects[hash].data| == |data| else ObjectName(data) == hash
  }

  function Store(objects: map<string, ObjectNode>, hash: string, data: Bytes): map<string, ObjectNode> {
    if hash in objects then objects else objects[hash := ObjectFile(data)]
  }

  function StoreAll(objects: map<string, ObjectNode>, walk: seq<Item>): map<string, ObjectNode> {
    if walk == [] then objects
    else
      var last := walk[|walk| - 1];
      var before := StoreAll(objects, walk[..|walk| - 1]);
      if CasItem(last) then Store(before, HashOf(last), DataOf(last)) else before
  }

  function CasRows(walk: seq<Item>): seq<Row> {
    if walk == [] then []
    else
      var last := walk[|walk| - 1];
      CasRows(walk[..|walk| - 1]) + if CasItem(last) then [ObjectIndex.Row(HashOf(last), |DataOf(last)|)] else []
  }

  /** What the walk of the object root accepts of one item. */
  predicate Takeable(item: Item) {
    (CasItem(item) ==> CasFile(item)) && (item.path == BLOBS ==> item.node.Directory?)
  }

  predicate Storable(objects: map<string, ObjectNode>, item: Item) {
    Takeable(item) && (CasItem(item) ==> CanStore(objects, HashOf(item), DataOf(item)))
  }

  /** Exactly when a capture that no device error interrupts succeeds. */
  ghost predicate Capturable(objects: map<string, ObjectNode>, walk: seq<Item>) {
    forall i :: 0 <= i < |walk| ==> Storable(objects, walk[i]) && Encodable(walk[i])
  }

  /** A hash names one path, so no two items of a walk share it. */
  lemma HashesDiffer(a: Item, b: Item)
    requires a.path != b.path && CasFile(a) && CasFile(b)
    ensures HashOf(a) != HashOf(b)
  {
    CasHashMeaning(a.path, HashOf(a));
    CasHashMeaning(b.path, HashOf(b));
  }

  /** What the store holds after some items. */
  lemma {:induction false} StoreAllMeaning(objects: map<string, ObjectNode>, walk: seq<Item>, h: string)
    ensures h in StoreAll(objects, walk) <==>
      h in objects || exists i :: 0 <= i < |walk| && CasItem(walk[i]) && HashOf(walk[i]) == h
    ensures h in objects ==> StoreAll(objects, walk)[h] == objects[h]
    ensures h in StoreAll(objects, walk) && h !in objects ==>
      exists i :: 0 <= i < |walk| && CasItem(walk[i]) && HashOf(walk[i]) == h
        && StoreAll(objects, walk)[h] == ObjectFile(DataOf(walk[i]))
  {
    hide CasItem, HashOf, DataOf;
    if walk != [] {
      var k := |walk| - 1;
      StoreAllMeaning(objects, walk[..k], h);
      if i :| 0 <= i < k && CasItem(walk[..k][i]) && HashOf(walk[..k][i]) == h {
        assert CasItem(walk[i]) && HashOf(walk[i]) == h;
      }
      if h in StoreAll(objects, walk[..k]) && h !in objects {
        var i :| 0 <= i < k && CasItem(walk[..k][i]) && HashOf(walk[..k][i]) == h
          && StoreAll(objects, walk[..k])[h] == ObjectFile(DataOf(walk[..k][i]));
        assert CasItem(walk[i]) && HashOf(walk[i]) == h && DataOf(walk[i]) == DataOf(walk[..k][i]);
      }
    }
  }

  /** Storing the earlier items does not change what the next one finds. */
  lemma StorableLater(objects: map<string, ObjectNode>, walk: seq<Item>, k: nat)
    requires IsWalk(walk) && k < |walk| && forall i :: 0 <= i <= k ==> Takeable(walk[i])
    requires CasItem(walk[k])
    ensures HashOf(walk[k]) in StoreAll(objects, walk[..k]) <==> HashOf(walk[k]) in objects
    ensures CanStore(StoreAll(objects, walk[..k]), HashOf(walk[k]), DataOf(walk[k])) <==>
      CanStore(objects, HashOf(walk[k]), DataOf(walk[k]))
  {
    hide CasItem, HashOf, DataOf, CasFile;
    var h := HashOf(walk[k]);
    StoreAllMeaning(objects, walk[..k], h);
    if i :| 0 <= i < k && CasItem(walk[..k][i]) && HashOf(walk[..k][i]) == h {
      HashesDiffer(walk[i], walk[k]);
      assert false;
    }
  }

  // ----- the acts of a capture -----

  /** Storing one object: its bucket directory if that is new, the link, the bucket's sync. */
  function CreateActs(g: State, hash: string, data: Bytes): seq<Act> {
    if hash in g.disk.objects then []
    else
      (if BucketName(hash) in g.buckets then [] else [MakeBucket(BucketName(hash))])
        + [Link(hash, data), Issue(Sync(Bucket(BucketName(hash))))]
  }

  function ItemActs(g: State, item: Item): seq<Act> {
    if CasItem(item) then CreateActs(g, HashOf(item), DataOf(item)) else []
  }

  /** What a capture issues for the items of its walk, one after another. */
  function CaptureActs(g: State, walk: seq<Item>): seq<Act> {
    if walk == [] then []
    else
      var before := CaptureActs(g, walk[..|walk| - 1]);
      before + ItemActs(Effects(g, before), walk[|walk| - 1])
  }

  lemma {:induction false} CaptureActsPrefix(g: State, walk: seq<Item>, k: nat)
    requires k <= |walk|
    ensures CaptureActs(g, walk[..k]) <= CaptureActs(g, walk)
  {
    hide ItemActs;
    if k == |walk| {
      assert walk[..k] == walk;
    } else {
      CaptureActsPrefix(g, walk[..|walk| - 1], k);
      assert walk[..|walk| - 1][..k] == walk[..k];
    }
  }

  /** The store and the buckets after some of the acts that create one object. */
  lemma CreateEffects(g: State, hash: string, data: Bytes, n: nat)
    requires hash !in g.disk.objects && n <= |CreateActs(g, hash, data)|
    ensures var e := Effects(g, CreateActs(g, hash, data)[..n]);
      && e.disk.objects ==
        (if n + 2 > |CreateActs(g, hash, data)| then g.disk.objects[hash := ObjectFile(data)] else g.disk.objects)
      && e.buckets == (if n > 0 then g.buckets + {BucketName(hash)} else g.buckets)
  {
    hide BucketName, Effect, Effects;
    var acts, b := CreateActs(g, hash, data), BucketName(hash);
    NothingDone(g);
    assert acts[..0] == [];
    if b in g.buckets { assert g.buckets + {b} == g.buckets; }
    for i := 0 to n
      invariant Effects(g, acts[..i]).disk.objects ==
        if i + 2 > |acts| then g.disk.objects[hash := ObjectFile(data)] else g.disk.objects
      invariant Effects(g, acts[..i]).buckets == if i > 0 then g.buckets + {b} else g.buckets
    {
      EffectsOne(g, acts[..i], acts[i]);
      assert acts[..i + 1] == acts[..i] + [acts[i]];
      CreateStep(Effects(g, acts[..i]), acts[i]);
    }
  }

  lemma CreateStep(g: State, a: Act)
    ensures a.MakeBucket? ==> Effect(g, a).disk == g.disk && Effect(g, a).buckets == g.buckets + {a.bucket}
    ensures a.Issue? && a.op.Sync? ==> Effect(g, a) == g
    ensures a.Link? && a.hash !in g.disk.objects && BucketName(a.hash) in g.buckets ==>
      Effect(g, a).disk.objects == g.disk.objects[a.hash := ObjectFile(a.data)] && Effect(g, a).buckets == g.buckets
  {
  }

  lemma ItemStored(g: State, item: Item)
    ensures Effects(g, ItemActs(g, item)).disk.objects ==
      if CasItem(item) then Store(g.disk.objects, HashOf(item), DataOf(item)) else g.disk.objects
  {
    hide CasItem, HashOf, DataOf;
    var acts := ItemActs(g, item);
    if acts != [] {
      CreateEffects(g, HashOf(item), DataOf(item), |acts|);
      assert acts[..|acts|] == acts;
    }
  }

  /** All its acts together store what the walk has. */
  lemma {:induction false} CaptureStores(g: State, walk: seq<Item>)
    ensures Effects(g, CaptureActs(g, walk)).disk.objects == StoreAll(g.disk.objects, walk)
  {
    hide ItemActs, CasItem, HashOf, DataOf, Effects, Store;
    if walk == [] {
      NothingDone(g);
    } else {
      var k := |walk| - 1;
      var before := CaptureActs(g, walk[..k]);
      CaptureStores(g, walk[..k]);
      ItemStored(Effects(g, before), walk[k]);
      EffectsConcat(g, before, ItemActs(Effects(g, before), walk[k]));
    }
  }

  lemma NothingDone(g: State)
    ensures Effects(g, []) == g
  {
  }

  /** A link made for an object file of the source, under the digest of its content. */
  ghost predicate FromSource(walk: seq<Item>, a: Act) {
    a.Link? ==>
      && ObjectName(a.data) == a.hash
      && exists i :: 0 <= i < |walk| && CasItem(walk[i]) && CasFile(walk[i]) && DataOf(walk[i]) == a.data
  }

  ghost predicate AllFromSource(walk: seq<Item>, acts: seq<Act>) {
    forall i :: 0 <= i < |acts| ==> FromSource(walk, acts[i])
  }

  /** One item's acts follow those of the items before it. */
  lemma ItemFollows(g: State, walk: seq<Item>, i: nat, n: nat)
    requires i < |walk|
    ensures var before := CaptureActs(g, walk[..i]); var acts := ItemActs(Effects(g, before), walk[i]);
      n <= |acts| ==>
        && |before| + n <= |CaptureActs(g, walk)|
        && CaptureActs(g, walk)[..|before| + n] == before + acts[..n]
        && Effects(g, before + acts[..n]) == Effects(Effects(g, before), acts[..n])
        && CaptureActs(g, walk[..i + 1]) == before + acts
  {
    hide ItemActs, Effects;
    assert walk[..i + 1][..i] == walk[..i];
    CaptureActsPrefix(g, walk, i + 1);
    var before := CaptureActs(g, walk[..i]);
    var acts := ItemActs(Effects(g, before), walk[i]);
    if n <= |acts| { EffectsConcat(g, before, acts[..n]); }
  }

  class CaptureRun {
    var objects: map<string, ObjectNode>
    var buckets: set<string>
    var log: seq<Act>
    var created: nat
    var reused: nat
    /** How many more acts can be performed before the device fails or the process stops. */
    var budget: nat

    constructor (store: map<string, ObjectNode>, directories: set<string>, operations: nat)
      ensures objects == store && buckets == directories && log == [] && created == 0 && reused == 0
      ensures budget == operations
    {
      objects, buckets, log, created, reused, budget := store, directories, [], 0, 0, operations;
    }

    /** The program sees the store and the buckets of `g`. */
    ghost predicate Sees(g: State) reads this {
      objects == g.disk.objects && buckets == g.buckets
    }

    /** The bucket directory is made before the content is read; a content that does not have the
        digest of its name is never linked. */
    method CreateObject(hash: string, data: Bytes, ghost g: State) returns (added: Option<bool>, ghost issued: nat)
      requires Sees(g)
      modifies this
      ensures created == old(created) && reused == old(reused)
      ensures issued <= |CreateActs(g, hash, data)| && log == old(log) + CreateActs(g, hash, data)[..issued]
      ensures Sees(Effects(g, CreateActs(g, hash, data)[..issued]))
      ensures ObjectName(data) == hash || forall i :: 0 <= i < issued ==> !CreateActs(g, hash, data)[i].Link?
      ensures objects == old(objects)
        || (CanStore(old(objects), hash, data) && objects == Store(old(objects), hash, data))
      ensures added.Some? ==>
        && CanStore(old(objects), hash, data) && objects == Store(old(objects), hash, data)
        && (added.value <==> hash !in old(objects)) && issued == |CreateActs(g, hash, data)|
      ensures added == None ==> !CanStore(old(objects), hash, data) || budget == 0
    {
      hide BucketName, Effect, Effects;
      ghost var acts := CreateActs(g, hash, data);
      issued := 0;
      assert acts[..0] == [];
      NothingDone(g);
      if hash in objects {
        if !objects[hash].ObjectFile? || |objects[hash].data| != |data| {
          return None, 0;
        }
        return Some(false), 0;
      }
      var bucket := BucketName(hash);
      if bucket !in buckets {
        if budget == 0 {
          return None, 0;
        }
        CreateEffects(g, hash, data, 1);
        buckets, log, budget, issued := buckets + {bucket}, log + [MakeBucket(bucket)], budget - 1, 1;
      }
      if ObjectName(data) != hash || budget == 0 {
        return None, issued;
      }
      CreateEffects(g, hash, data, issued + 1);
      assert acts[..issued + 1] == acts[..issued] + [Link(hash, data)];
      objects, log, budget, issued :=
        objects[hash := ObjectFile(data)], log + [Link(hash, data)], budget - 1, issued + 1;
      if budget == 0 {
        return None, issued;
      }
      CreateEffects(g, hash, data, issued + 1);
      assert acts[..issued + 1] == acts[..issued] + [Issue(Sync(Bucket(bucket)))];
      log, budget, issued := log + [Issue(Sync(Bucket(bucket)))], budget - 1, issued + 1;
      added := Some(true);
    }

    /** One object item: stored if it is new, and counted as created or reused. */
    method CopyOne(walk: seq<Item>, i: nat, ghost g: State) returns (ok: bool, ghost n: nat)
      requires i < |walk| && CasItem(walk[i]) && Takeable(walk[i]) && AllFromSource(walk, CaptureActs(g, walk[..i]))
      requires Sees(Effects(g, CaptureActs(g, walk[..i])))
      modifies this
      ensures |CaptureActs(g, walk[..i])| + n <= |CaptureActs(g, walk)|
      ensures log == old(log) + CaptureActs(g, walk)[|CaptureActs(g, walk[..i])|..][..n]
      ensures Sees(Effects(g, CaptureActs(g, walk)[..|CaptureActs(g, walk[..i])| + n]))
      ensures AllFromSource(walk, CaptureActs(g, walk)[..|CaptureActs(g, walk[..i])| + n])
      ensures CaptureActs(g, walk[..i]) <= CaptureActs(g, walk)
      ensures ok ==> objects == Store(old(objects), HashOf(walk[i]), DataOf(walk[i]))
      ensures ok ==> CanStore(old(objects), HashOf(walk[i]), DataOf(walk[i]))
      ensures ok ==> CaptureActs(g, walk[..i + 1]) == CaptureActs(g, walk)[..|CaptureActs(g, walk[..i])| + n]
      ensures ok ==> created + reused == old(created) + old(reused) + 1
      ensures ok ==> created == old(created) + |objects.Keys| - |old(objects).Keys|
      ensures !ok ==> budget == 0 || !CanStore(old(objects), HashOf(walk[i]), DataOf(walk[i]))
    {
      hide CasItem, HashOf, DataOf, CanStore, Store, CreateActs, Effects, CaptureActs, ItemActs, AllFromSource,
        Takeable;
      ghost var before := CaptureActs(g, walk[..i]);
      StoreCount(objects, HashOf(walk[i]), DataOf(walk[i]));
      var added;
      added, n := CreateObject(HashOf(walk[i]), DataOf(walk[i]), Effects(g, before));
      ItemDone(g, walk, i, n);
      ghost var all := CaptureActs(g, walk);
      assert all[..|before| + n][..|before|] == all[..|before|];
      assert all[..|before| + n][|before|..] == all[|before|..][..n];
      if added == None {
        return false, n;
      }
      if added.value { created := created + 1; } else { reused := reused + 1; }
      ok := true;
    }

    /** The walk of the object root. What was done before a failure stays. */
    method CopyObjects(walk: seq<Item>, ghost g: State) returns (index: Option<string>, ghost issued: nat)
      requires IsWalk(walk) && Sees(g)
      modifies this
      ensures issued <= |CaptureActs(g, walk)| && log == old(log) + CaptureActs(g, walk)[..issued]
      ensures Sees(Effects(g, CaptureActs(g, walk)[..issued])) && AllFromSource(walk, CaptureActs(g, walk)[..issued])
      ensures index.Some? ==> issued == |CaptureActs(g, walk)| && objects == StoreAll(old(objects), walk)
      ensures index.Some? ==> index.value == ObjectIndex.Write(CasRows(walk))
      ensures index.Some? ==> forall i :: 0 <= i < |walk| ==> Storable(old(objects), walk[i])
      ensures index.Some? ==> created == old(created) + |objects.Keys| - |old(objects).Keys|
      ensures index.Some? ==> created + reused == old(created) + old(reused) + |CasRows(walk)|
      ensures index == None ==> budget == 0 || exists i :: 0 <= i < |walk| && !Storable(old(objects), walk[i])
    {
      hide CasItem, HashOf, DataOf, CasFile, ObjectIndex.WriteRow, CanStore, Store, CasRows, CreateActs, Effects,
        CaptureActs, ItemActs, AllFromSource, BucketName, ObjectIndex.Write, Takeable, StoreAll, IsWalk;
      NoRows(walk);
      NothingYet(g, walk);
      var text := "";
      issued := 0;
      for i := 0 to |walk|
        invariant issued == |CaptureActs(g, walk[..i])| && issued <= |CaptureActs(g, walk)|
        invariant CaptureActs(g, walk[..i]) == CaptureActs(g, walk)[..issued]
          && log == old(log) + CaptureActs(g, walk[..i])
        invariant Sees(Effects(g, CaptureActs(g, walk[..i]))) && AllFromSource(walk, CaptureActs(g, walk[..i]))
        invariant objects == StoreAll(old(objects), walk[..i])
        invariant forall j :: 0 <= j < i ==> Storable(old(objects), walk[j])
        invariant text == ObjectIndex.Write(CasRows(walk[..i]))
        invariant created + reused == old(created) + old(reused) + |CasRows(walk[..i])|
        invariant created == old(created) + |objects.Keys| - |old(objects).Keys|
      {
        var item := walk[i];
        StoreAllStep(old(objects), walk, i);
        RowAppended(walk, i);
        if !Takeable(item) {
          return None, issued;
        }
        if CasItem(item) {
          StorableLater(old(objects), walk, i);
          var ok;
          ghost var n;
          ok, n := CopyOne(walk, i, g);
          SlicesJoin(CaptureActs(g, walk), issued, n);
          issued := issued + n;
          if !ok {
            return None, issued;
          }
          var row := ObjectIndex.Row(HashOf(item), |DataOf(item)|);
          text := text + ObjectIndex.WriteRow(row);
        } else {
          NoItemActs(Effects(g, CaptureActs(g, walk[..i])), item);
          ItemFollows(g, walk, i, 0);
        }
      }
      assert walk[..|walk|] == walk;
      index := Some(text);
    }

    /** A whole capture: the index and the archive of the new generation. It reports how many objects
        it added, and how many of the index it found already there. */
    method Capture(walk: seq<Item>, ghost g: State) returns (r: Option<(string, seq<TarEntry>)>, ghost issued: nat)
      requires IsWalk(walk) && Sees(g)
      modifies this
      ensures issued <= |CaptureActs(g, walk)| && log == old(log) + CaptureActs(g, walk)[..issued]
      ensures Sees(Effects(g, CaptureActs(g, walk)[..issued])) && AllFromSource(walk, CaptureActs(g, walk)[..issued])
      ensures r.Some? ==> issued == |CaptureActs(g, walk)| && Capturable(old(objects), walk)
      ensures r.Some? ==> objects == StoreAll(old(objects), walk)
      ensures r.Some? ==>
        && created == old(created) + |objects.Keys| - |old(objects).Keys|
        && created + reused == old(created) + old(reused) + |CasRows(walk)|
      ensures r.Some? ==> r.value == (ObjectIndex.Write(CasRows(walk)), ArchiveOf(walk))
      ensures r == None ==> budget == 0 || !Capturable(old(objects), walk)
    {
      hide Storable, Encodable, CaptureActs, Effects, AllFromSource;
      var index;
      index, issued := CopyObjects(walk, g);
      if index == None {
        return None, issued;
      }
      var archive := EncodeTarLegacy(walk);
      if archive == None {
        return None, issued;
      }
      r := Some((index.value, archive.value));
    }
  }

  lemma StoreAllStep(objects: map<string, ObjectNode>, walk: seq<Item>, i: nat)
    requires i < |walk|
    ensures StoreAll(objects, walk[..i + 1]) ==
      if CasItem(walk[i]) then Store(StoreAll(objects, walk[..i]), HashOf(walk[i]), DataOf(walk[i]))
      else StoreAll(objects, walk[..i])
    ensures StoreAll(objects, walk[..0]) == objects
  {
    assert walk[..i + 1][..i] == walk[..i];
  }

  lemma SlicesJoin<T>(s: seq<T>, a: nat, n: nat)
    requires a + n <= |s|
    ensures s[..a] + s[a..][..n] == s[..a + n]
  {
  }

  lemma StoreCount(objects: map<string, ObjectNode>, hash: string, data: Bytes)
    ensures |Store(objects, hash, data).Keys| == |objects.Keys| + if hash in objects then 0 else 1
  {
    if hash !in objects { assert Store(objects, hash, data).Keys == objects.Keys + {hash}; }
  }

  lemma NothingYet(g: State, walk: seq<Item>)
    ensures walk[..0] == [] && CaptureActs(g, walk[..0]) == [] && Effects(g, []) == g && AllFromSource(walk, [])
    ensures CaptureActs(g, walk)[..0] == [] && StoreAll(g.disk.objects, walk[..0]) == g.disk.objects
  {
  }

  lemma ItemIsCreate(g: State, item: Item)
    requires CasItem(item)
    ensures ItemActs(g, item) == CreateActs(g, HashOf(item), DataOf(item))
  {
  }

  lemma NoItemActs(g: State, item: Item)
    requires !CasItem(item)
    ensures ItemActs(g, item) == []
  {
  }

  /** What some acts of one item add to those of the items before it. */
  lemma ItemDone(g: State, walk: seq<Item>, i: nat, n: nat)
    requires i < |walk| && CasItem(walk[i]) && Takeable(walk[i]) && AllFromSource(walk, CaptureActs(g, walk[..i]))
    requires var acts := CreateActs(Effects(g, CaptureActs(g, walk[..i])), HashOf(walk[i]), DataOf(walk[i]));
      n <= |acts| && (ObjectName(DataOf(walk[i])) == HashOf(walk[i]) || forall j :: 0 <= j < n ==> !acts[j].Link?)
    ensures var before := CaptureActs(g, walk[..i]); var e := Effects(g, before);
      var acts := CreateActs(e, HashOf(walk[i]), DataOf(walk[i])); var m := |before| + n;
      && m <= |CaptureActs(g, walk)| && CaptureActs(g, walk)[..m] == before + acts[..n]
      && AllFromSource(walk, before + acts[..n])
      && Effects(g, before + acts[..n]) == Effects(e, acts[..n])
      && (n == |acts| ==> CaptureActs(g, walk[..i + 1]) == before + acts[..n])
  {
    hide CasItem, HashOf, DataOf, Takeable, CaptureActs, Effects, CreateActs, ItemActs;
    var before := CaptureActs(g, walk[..i]);
    ItemIsCreate(Effects(g, before), walk[i]);
    ItemFollows(g, walk, i, n);
    ItemFromSource(g, walk, i, n);
  }

  lemma ItemFromSource(g: State, walk: seq<Item>, i: nat, n: nat)
    requires i < |walk| && CasItem(walk[i]) && Takeable(walk[i])
    requires var before := CaptureActs(g, walk[..i]);
      var acts := CreateActs(Effects(g, before), HashOf(walk[i]), DataOf(walk[i]));
      && AllFromSource(walk, before) && n <= |acts|
      && (ObjectName(DataOf(walk[i])) == HashOf(walk[i]) || forall j :: 0 <= j < n ==> !acts[j].Link?)
    ensures var before := CaptureActs(g, walk[..i]);
      var acts := CreateActs(Effects(g, before), HashOf(walk[i]), DataOf(walk[i]));
      AllFromSource(walk, before + acts[..n])
  {
    hide CasItem, HashOf, DataOf, CasFile, CaptureActs, Effects;
  }

  lemma NoRows(walk: seq<Item>)
    ensures CasRows(walk[..0]) == [] && ObjectIndex.Write(CasRows(walk[..0])) == ""
  {
  }

  lemma RowAppended(walk: seq<Item>, i: nat)
    requires i < |walk|
    ensures var row := ObjectIndex.Row(HashOf(walk[i]), |DataOf(walk[i])|);
      var rows := CasRows(walk[..i]);
      if CasItem(walk[i]) then
        && CasRows(walk[..i + 1]) == rows + [row]
        && ObjectIndex.Write(rows + [row]) == ObjectIndex.Write(rows) + ObjectIndex.WriteRow(row)
      else
        CasRows(walk[..i + 1]) == rows
  {
    hide CasItem, HashOf, DataOf;
    assert walk[..i + 1][..i] == walk[..i];
    WriteAppend(CasRows(walk[..i]), ObjectIndex.Row(HashOf(walk[i]), |DataOf(walk[i])|));
  }

  lemma {:induction false} WriteAppend(rows: seq<Row>, row: Row)
    ensures ObjectIndex.Write(rows + [row]) == ObjectIndex.Write(rows) + ObjectIndex.WriteRow(row)
  {
    if rows == [] {
      assert [] + [row] == [row];
      assert ObjectIndex.Write([row][1..]) == "";
    } else {
      WriteAppend(rows[1..], row);
      assert (rows + [row])[1..] == rows[1..] + [row];
    }
  }

  // ----- the index -----

  lemma {:induction false} RowFrom(walk: seq<Item>, i: nat) returns (j: nat)
    requires i < |CasRows(walk)|
    ensures j < |walk| && CasItem(walk[j]) && CasRows(walk)[i] == ObjectIndex.Row(HashOf(walk[j]), |DataOf(walk[j])|)
  {
    hide CasItem, HashOf, DataOf;
    var k := |walk| - 1;
    if i < |CasRows(walk[..k])| { j := RowFrom(walk[..k], i); } else { j := k; }
  }

  lemma {:induction false} RowFor(walk: seq<Item>, j: nat) returns (i: nat)
    requires j < |walk| && CasItem(walk[j])
    ensures i < |CasRows(walk)| && CasRows(walk)[i] == ObjectIndex.Row(HashOf(walk[j]), |DataOf(walk[j])|)
  {
    hide CasItem, HashOf, DataOf;
    var k := |walk| - 1;
    if j < k { i := RowFor(walk[..k], j); } else { i := |CasRows(walk[..k])|; }
  }

  /** The rows of a capture have distinct hashes and sizes the reader takes. */
  lemma {:induction false} RowsDistinctAndValid(walk: seq<Item>)
    requires IsWalk(walk) && forall i :: 0 <= i < |walk| ==> Takeable(walk[i])
    ensures ObjectIndex.Distinct(CasRows(walk))
    ensures forall i :: 0 <= i < |CasRows(walk)| ==> ObjectIndex.RowValid(CasRows(walk)[i])
  {
    hide CasItem, HashOf, DataOf, CasFile;
    if walk != [] {
      var k := |walk| - 1;
      WalkPrefix(walk, k);
      RowsDistinctAndValid(walk[..k]);
      if CasItem(walk[k]) {
        var rows := CasRows(walk[..k]);
        LastRowValid(walk, k);
        forall i | 0 <= i < |rows| ensures rows[i].hash != HashOf(walk[k]) {
          var j := RowFrom(walk[..k], i);
          HashesDiffer(walk[j], walk[k]);
        }
      }
    }
  }

  lemma LastRowValid(walk: seq<Item>, k: nat)
    requires IsWalk(walk) && k < |walk| && CasFile(walk[k])
    ensures ObjectIndex.RowValid(ObjectIndex.Row(HashOf(walk[k]), |DataOf(walk[k])|))
  {
    hide CasItem;
  }

  /** The index a capture writes reads back as the rows it recorded. */
  lemma {:induction false} IndexReadsBack(walk: seq<Item>)
    requires IsWalk(walk) && forall i :: 0 <= i < |walk| ==> Takeable(walk[i])
    ensures ObjectIndex.Read(ObjectIndex.Write(CasRows(walk))) == ObjectIndex.Reading(CasRows(walk), true)
  {
    hide CasRows, Takeable;
    RowsDistinctAndValid(walk);
    ObjectIndex.RoundTrip(CasRows(walk));
  }
}
