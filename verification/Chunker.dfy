/** Content-anchored chunks over a shared store: what a common tail costs, and range reads. */
module Chunker {
  import opened Wrappers
  import opened Content

  const ATOM := 65536
  const MIB := 1048576
  const FIXED := 8 * MIB
  const SMALLEST := 2 * MIB
  const LARGEST := 16 * MIB

  datatype Mode = Fixed | Anchored

  /** The 32-bit BLAKE2s digest of an atom. Nothing is known of it. */
  const AnchorHash: Bytes -> nat

  predicate Anchor(atom: Bytes) {
    AnchorHash(atom) % 128 == 0
  }

  function Join(parts: seq<Bytes>): Bytes {
    if parts == [] then [] else Join(parts[..|parts| - 1]) + parts[|parts| - 1]
  }

  lemma {:induction false} JoinConcat(a: seq<Bytes>, b: seq<Bytes>)
    ensures Join(a + b) == Join(a) + Join(b)
  {
    if b == [] {
      assert a + b == a;
    } else {
      assert (a + b)[..|a + b| - 1] == a + b[..|b| - 1];
      JoinConcat(a, b[..|b| - 1]);
    }
  }

  lemma JoinOne(part: Bytes)
    ensures Join([part]) == part
  {
    assert [part][..0] == [];
  }

  // ----- chunks -----

  /** The chunks emitted so far, and the buffer. */
  datatype State = State(emitted: seq<Bytes>, buffer: Bytes)

  predicate Cuts(mode: Mode, buffer: Bytes, atom: Bytes) {
    match mode
    case Fixed => |buffer| >= FIXED
    case Anchored => |buffer| >= LARGEST || (|buffer| >= SMALLEST && Anchor(atom))
  }

  function Feed(s: State, atom: Bytes, mode: Mode): State {
    var buffer := s.buffer + atom;
    if Cuts(mode, buffer, atom) then State(s.emitted + [buffer], []) else State(s.emitted, buffer)
  }

  function FeedAll(atoms: seq<Bytes>, mode: Mode): State {
    if atoms == [] then State([], []) else Feed(FeedAll(atoms[..|atoms| - 1], mode), atoms[|atoms| - 1], mode)
  }

  function Chunks(atoms: seq<Bytes>, mode: Mode): seq<Bytes> {
    var s := FeedAll(atoms, mode);
    if s.buffer == [] then s.emitted else s.emitted + [s.buffer]
  }

  method MakeChunks(atoms: seq<Bytes>, mode: Mode) returns (r: seq<Bytes>)
    ensures r == Chunks(atoms, mode)
  {
    hide Cuts;
    var buffer: Bytes := [];
    r := [];
    for i := 0 to |atoms|
      invariant State(r, buffer) == FeedAll(atoms[..i], mode)
    {
      assert atoms[..i + 1][..i] == atoms[..i];
      buffer := buffer + atoms[i];
      if Cuts(mode, buffer, atoms[i]) {
        r := r + [buffer];
        buffer := [];
      }
    }
    assert atoms[..|atoms|] == atoms;
    if buffer != [] {
      r := r + [buffer];
    }
  }

  /** Nothing is lost, and nothing is reordered. */
  lemma {:induction false} FeedLossless(atoms: seq<Bytes>, mode: Mode)
    ensures Join(FeedAll(atoms, mode).emitted) + FeedAll(atoms, mode).buffer == Join(atoms)
  {
    hide Cuts;
    if atoms != [] {
      var k := |atoms| - 1;
      FeedLossless(atoms[..k], mode);
      var s := FeedAll(atoms[..k], mode);
      JoinConcat(s.emitted, [s.buffer + atoms[k]]);
      JoinOne(s.buffer + atoms[k]);
      assert Join(s.emitted) + (s.buffer + atoms[k]) == (Join(s.emitted) + s.buffer) + atoms[k];
    }
  }

  lemma ChunksLossless(atoms: seq<Bytes>, mode: Mode)
    ensures Join(Chunks(atoms, mode)) == Join(atoms)
  {
    FeedLossless(atoms, mode);
    var s := FeedAll(atoms, mode);
    JoinConcat(s.emitted, [s.buffer]);
    JoinOne(s.buffer);
  }

  /** After a cut, what follows is chunked as if it stood alone. */
  lemma {:induction false} FeedAfterCut(xs: seq<Bytes>, ys: seq<Bytes>, mode: Mode)
    requires FeedAll(xs, mode).buffer == []
    ensures FeedAll(xs + ys, mode) ==
      State(FeedAll(xs, mode).emitted + FeedAll(ys, mode).emitted, FeedAll(ys, mode).buffer)
  {
    hide Cuts;
    if ys == [] {
      assert xs + ys == xs;
    } else {
      var k := |ys| - 1;
      assert (xs + ys)[..|xs + ys| - 1] == xs + ys[..k];
      FeedAfterCut(xs, ys[..k], mode);
    }
  }

  lemma Composition(xs: seq<Bytes>, ys: seq<Bytes>, mode: Mode)
    requires FeedAll(xs, mode).buffer == []
    ensures Chunks(xs + ys, mode) == Chunks(xs, mode) + Chunks(ys, mode)
  {
    FeedAfterCut(xs, ys, mode);
  }

  /** The first `i` atoms are a chunk: enough bytes, and in anchored mode an anchor at their end or
      as many bytes as there may be. */
  ghost predicate EndsChunk(atoms: seq<Bytes>, mode: Mode, i: nat) {
    && 0 < i <= |atoms|
    && match mode
       case Fixed => |Join(atoms[..i])| >= 8_388_608
       case Anchored =>
         || |Join(atoms[..i])| >= 16_777_216
         || (|Join(atoms[..i])| >= 2_097_152 && AnchorHash(atoms[i - 1]) % 128 == 0)
  }

  lemma {:induction false} BufferGrows(atoms: seq<Bytes>, mode: Mode, i: nat)
    requires i <= |atoms| && forall j :: 0 <= j <= i ==> !EndsChunk(atoms, mode, j)
    ensures FeedAll(atoms[..i], mode) == State([], Join(atoms[..i]))
  {
    if i > 0 {
      BufferGrows(atoms, mode, i - 1);
      assert atoms[..i][..i - 1] == atoms[..i - 1];
      assert !EndsChunk(atoms, mode, i);
    }
  }

  /** Where the cuts are: the first chunk ends at the first place where it may, and the rest is
      chunked in the same way; without such a place all of it is one chunk. */
  lemma FirstChunk(atoms: seq<Bytes>, mode: Mode, i: nat)
    requires forall j :: 0 <= j < i ==> !EndsChunk(atoms, mode, j)
    ensures EndsChunk(atoms, mode, i) ==> Chunks(atoms, mode) == [Join(atoms[..i])] + Chunks(atoms[i..], mode)
    ensures i == |atoms| && !EndsChunk(atoms, mode, i) ==>
      Chunks(atoms, mode) == if Join(atoms) == [] then [] else [Join(atoms)]
  {
    hide EndsChunk, FeedAll, Join;
    if EndsChunk(atoms, mode, i) {
      FirstCut(atoms, mode, i);
      assert atoms == atoms[..i] + atoms[i..];
      Composition(atoms[..i], atoms[i..], mode);
      OneChunk(atoms[..i], mode);
    } else if i == |atoms| {
      BufferGrows(atoms, mode, i);
      assert atoms[..i] == atoms;
    }
  }

  lemma FirstCut(atoms: seq<Bytes>, mode: Mode, i: nat)
    requires EndsChunk(atoms, mode, i) && forall j :: 0 <= j < i ==> !EndsChunk(atoms, mode, j)
    ensures i <= |atoms| && FeedAll(atoms[..i], mode) == State([Join(atoms[..i])], [])
  {
    BufferGrows(atoms, mode, i - 1);
    assert atoms[..i][..i - 1] == atoms[..i - 1];
  }

  lemma OneChunk(atoms: seq<Bytes>, mode: Mode)
    requires FeedAll(atoms, mode).buffer == []
    ensures Chunks(atoms, mode) == FeedAll(atoms, mode).emitted
  {
  }

  /** Two streams that both hold enough when the same anchor passes have the same chunks from
      there on. */
  lemma Resynchronises(xs: seq<Bytes>, zs: seq<Bytes>, anchor: Bytes, tail: seq<Bytes>)
    requires Anchor(anchor)
    requires |FeedAll(xs, Anchored).buffer| + |anchor| >= SMALLEST
    requires |FeedAll(zs, Anchored).buffer| + |anchor| >= SMALLEST
    ensures Chunks(xs + [anchor] + tail, Anchored) == Chunks(xs + [anchor], Anchored) + Chunks(tail, Anchored)
    ensures Chunks(zs + [anchor] + tail, Anchored) == Chunks(zs + [anchor], Anchored) + Chunks(tail, Anchored)
  {
    assert (xs + [anchor])[..|xs|] == xs && (zs + [anchor])[..|zs|] == zs;
    Composition(xs + [anchor], tail, Anchored);
    Composition(zs + [anchor], tail, Anchored);
  }

  // ----- sizes -----

  /** Every atom but the last is whole. */
  ghost predicate Whole(atoms: seq<Bytes>) {
    && (forall i :: 0 <= i < |atoms| - 1 ==> |atoms[i]| == ATOM)
    && (atoms != [] ==> 0 < |atoms[|atoms| - 1]| <= ATOM)
  }

  predicate Least(mode: Mode, n: nat) {
    if mode.Fixed? then n == FIXED else SMALLEST <= n <= LARGEST
  }

  lemma {:induction false} FeedSizes(atoms: seq<Bytes>, mode: Mode)
    requires forall i :: 0 <= i < |atoms| ==> |atoms[i]| == ATOM
    ensures var s := FeedAll(atoms, mode);
      && |s.buffer| % ATOM == 0 && |s.buffer| < (if mode.Fixed? then FIXED else LARGEST)
      && forall i :: 0 <= i < |s.emitted| ==> Least(mode, |s.emitted[i]|)
  {
    if atoms != [] {
      var k := |atoms| - 1;
      FeedSizes(atoms[..k], mode);
      assert |FeedAll(atoms[..k], mode).buffer + atoms[k]| % ATOM == 0;
    }
  }

  /** Chunks lie between 2 and 16 MiB (exactly 8 MiB when cut at fixed sizes); only the last
      may be smaller. */
  lemma ChunkSizes(atoms: seq<Bytes>, mode: Mode)
    requires Whole(atoms)
    ensures var cs := Chunks(atoms, mode);
      && (forall i :: 0 <= i < |cs| - 1 ==> Least(mode, |cs[i]|))
      && (cs != [] ==> 0 < |cs[|cs| - 1]| <= (if mode.Fixed? then FIXED else LARGEST))
      && (forall i :: 0 <= i < |cs| - 1 ==>
            if mode.Fixed? then |cs[i]| == 8_388_608 else 2_097_152 <= |cs[i]| <= 16_777_216)
  {
    if atoms != [] {
      var k := |atoms| - 1;
      FeedSizes(atoms[..k], mode);
      var s := FeedAll(atoms[..k], mode);
      assert |s.buffer| <= (if mode.Fixed? then FIXED else LARGEST) - ATOM;
    }
  }

  // ----- the store -----

  datatype Ref = Ref(digest: string, size: nat)

  type Store = map<string, Bytes>

  function RefOf(chunk: Bytes): Ref {
    Ref(ObjectName(chunk), |chunk|)
  }

  function Refs(chunks: seq<Bytes>): seq<Ref> {
    if chunks == [] then [] else Refs(chunks[..|chunks| - 1]) + [RefOf(chunks[|chunks| - 1])]
  }

  function Put(store: Store, chunk: Bytes): Store {
    if ObjectName(chunk) in store then store else store[ObjectName(chunk) := chunk]
  }

  function PutAll(store: Store, chunks: seq<Bytes>): Store {
    if chunks == [] then store else Put(PutAll(store, chunks[..|chunks| - 1]), chunks[|chunks| - 1])
  }

  /** An object of that name is there, of another length. */
  ghost predicate ClashesAt(store: Store, chunks: seq<Bytes>, i: nat)
    requires i < |chunks|
  {
    ObjectName(chunks[i]) in PutAll(store, chunks[..i])
      && |PutAll(store, chunks[..i])[ObjectName(chunks[i])]| != |chunks[i]|
  }

  ghost predicate Clashes(store: Store, chunks: seq<Bytes>) {
    exists i :: 0 <= i < |chunks| && ClashesAt(store, chunks, i)
  }

  /** Where adding stands after `i` chunks. */
  ghost predicate Added(store: Store, chunks: seq<Bytes>, i: nat, objects: Store, refs: seq<Ref>, reused: nat,
      created: nat)
    requires i <= |chunks|
  {
    && objects == PutAll(store, chunks[..i]) && refs == Refs(chunks[..i])
    && reused + created == i && |objects| == |store| + created
  }

  lemma AddStep(store: Store, chunks: seq<Bytes>, i: nat, objects: Store, refs: seq<Ref>, reused: nat, created: nat)
    requires i < |chunks| && Added(store, chunks, i, objects, refs, reused, created)
    ensures var chunk := chunks[i];
      var digest, refs' := ObjectName(chunk), refs + [RefOf(chunk)];
      && (ClashesAt(store, chunks, i) <==> digest in objects && |objects[digest]| != |chunk|)
      && (digest in objects ==> Added(store, chunks, i + 1, objects, refs', reused + 1, created))
      && (digest !in objects ==> Added(store, chunks, i + 1, objects[digest := chunk], refs', reused, created + 1))
  {
    hide ObjectName;
    assert chunks[..i + 1][..i] == chunks[..i];
    if ObjectName(chunks[i]) !in objects { OneMoreObject(objects, ObjectName(chunks[i]), chunks[i]); }
  }

  lemma AddStart(store: Store, chunks: seq<Bytes>)
    ensures Added(store, chunks, 0, store, [], 0, 0)
  {
  }

  /** The chunk at `i` has the digest of something of another length: of an object that was there,
      or of an earlier chunk. */
  ghost predicate Disagree(store: Store, chunks: seq<Bytes>, i: int, j: int) {
    && 0 <= i < |chunks|
    && var digest := Sha256(Raw(chunks[i]));
       if digest in store then |store[digest]| != |chunks[i]|
       else 0 <= j < i && Sha256(Raw(chunks[j])) == digest && |chunks[j]| != |chunks[i]|
  }

  /** A reference to each chunk, and every object that was there or is a chunk. */
  ghost predicate Recorded(store: Store, chunks: seq<Bytes>, objects: Store, refs: seq<Ref>) {
    && |refs| == |chunks|
    && (forall i :: 0 <= i < |chunks| ==> refs[i] == Ref(Sha256(Raw(chunks[i])), |chunks[i]|))
    && (forall h :: h in store ==> h in objects && objects[h] == store[h])
    && (forall i :: 0 <= i < |chunks| ==> Sha256(Raw(chunks[i])) in objects)
    && (forall h :: h in objects && h !in store ==>
          exists i :: 0 <= i < |chunks| && chunks[i] == objects[h] && Sha256(Raw(chunks[i])) == h)
  }

  lemma {:induction false} RefsAt(chunks: seq<Bytes>)
    ensures |Refs(chunks)| == |chunks|
    ensures forall i :: 0 <= i < |chunks| ==> Refs(chunks)[i] == RefOf(chunks[i])
  {
    if chunks != [] { RefsAt(chunks[..|chunks| - 1]); }
  }

  /** What the store holds under a digest after some chunks: what it held, or the first of them. */
  lemma {:induction false} PutAllFirst(store: Store, chunks: seq<Bytes>, h: string)
    ensures h in store ==> h in PutAll(store, chunks) && PutAll(store, chunks)[h] == store[h]
    ensures h in PutAll(store, chunks) && h !in store ==>
      exists i :: 0 <= i < |chunks| && ObjectName(chunks[i]) == h && PutAll(store, chunks)[h] == chunks[i]
    ensures (exists i :: 0 <= i < |chunks| && ObjectName(chunks[i]) == h) ==> h in PutAll(store, chunks)
  {
    if chunks != [] {
      var k := |chunks| - 1;
      PutAllFirst(store, chunks[..k], h);
      var before := PutAll(store, chunks[..k]);
      if h in before && h !in store {
        var i :| 0 <= i < k && ObjectName(chunks[..k][i]) == h && before[h] == chunks[..k][i];
        assert chunks[i] == before[h];
      }
      forall i | 0 <= i < k && ObjectName(chunks[i]) == h ensures h in before {
        assert ObjectName(chunks[..k][i]) == h;
      }
    }
  }

  lemma RecordedIs(store: Store, chunks: seq<Bytes>)
    ensures Recorded(store, chunks, PutAll(store, chunks), Refs(chunks))
  {
    hide PutAll, Refs;
    RefsAt(chunks);
    forall h ensures h in store ==> h in PutAll(store, chunks) && PutAll(store, chunks)[h] == store[h] {
      PutAllFirst(store, chunks, h);
    }
    forall i | 0 <= i < |chunks| ensures Sha256(Raw(chunks[i])) in PutAll(store, chunks) {
      PutAllFirst(store, chunks, Sha256(Raw(chunks[i])));
      assert ObjectName(chunks[i]) == Sha256(Raw(chunks[i]));
    }
    forall h | h in PutAll(store, chunks) && h !in store
      ensures exists i :: 0 <= i < |chunks| && chunks[i] == PutAll(store, chunks)[h] && Sha256(Raw(chunks[i])) == h
    {
      PutAllFirst(store, chunks, h);
      var i :| 0 <= i < |chunks| && ObjectName(chunks[i]) == h && PutAll(store, chunks)[h] == chunks[i];
    }
  }

  lemma ClashMeaning(store: Store, chunks: seq<Bytes>)
    ensures Clashes(store, chunks) <==> exists i, j :: Disagree(store, chunks, i, j)
  {
    hide PutAll;
    if Clashes(store, chunks) {
      var i :| 0 <= i < |chunks| && ClashesAt(store, chunks, i);
      var h := ObjectName(chunks[i]);
      PutAllFirst(store, chunks[..i], h);
      if h in store {
        assert Disagree(store, chunks, i, 0);
      } else {
        var j :| 0 <= j < i && ObjectName(chunks[..i][j]) == h && PutAll(store, chunks[..i])[h] == chunks[..i][j];
        assert Disagree(store, chunks, i, j);
      }
    }
    if exists i, j :: Disagree(store, chunks, i, j) {
      var i, j :| Disagree(store, chunks, i, j);
      DisagreeClashes(store, chunks, i, j);
    }
  }

  lemma DisagreeClashes(store: Store, chunks: seq<Bytes>, i: int, j: int)
    requires Disagree(store, chunks, i, j)
    ensures Clashes(store, chunks)
  {
    hide PutAll;
    var h := ObjectName(chunks[i]);
    PutAllFirst(store, chunks[..i], h);
    if h in store {
      assert ClashesAt(store, chunks, i);
    } else {
      assert ObjectName(chunks[..i][j]) == h;
      var held := PutAll(store, chunks[..i])[h];
      if |held| != |chunks[i]| {
        assert ClashesAt(store, chunks, i);
      } else {
        FirstIsHeld(store, chunks, i, j, h);
      }
    }
  }

  /** An earlier chunk of another length than the one that is held clashed itself. */
  lemma {:induction false} FirstIsHeld(store: Store, chunks: seq<Bytes>, i: int, j: int, h: string)
    requires 0 <= j < i <= |chunks| && h !in store && ObjectName(chunks[j]) == h
    requires h in PutAll(store, chunks[..i]) && |PutAll(store, chunks[..i])[h]| != |chunks[j]|
    ensures Clashes(store, chunks)
  {
    PutAllFirst(store, chunks[..j], h);
    HeldStays(store, chunks, j, i, h);
    if h in PutAll(store, chunks[..j]) {
      assert ClashesAt(store, chunks, j);
    } else {
      assert chunks[..j + 1][..j] == chunks[..j];
      HeldStays(store, chunks, j + 1, i, h);
      assert false;
    }
  }

  lemma {:induction false} HeldStays(store: Store, chunks: seq<Bytes>, j: int, i: int, h: string)
    requires 0 <= j <= i <= |chunks|
    ensures h in PutAll(store, chunks[..j]) ==>
      h in PutAll(store, chunks[..i]) && PutAll(store, chunks[..i])[h] == PutAll(store, chunks[..j])[h]
    decreases i
  {
    if j < i {
      HeldStays(store, chunks, j, i - 1, h);
      assert chunks[..i][..i - 1] == chunks[..i - 1];
    }
  }

  /** `add_version`. */
  method AddVersion(store: Store, atoms: seq<Bytes>, mode: Mode) returns (r: Option<(Store, seq<Ref>, nat, nat)>)
    ensures r.Some? <==> !Clashes(store, Chunks(atoms, mode))
    ensures r.Some? ==>
      && r.value.0 == PutAll(store, Chunks(atoms, mode)) && r.value.1 == Refs(Chunks(atoms, mode))
      && r.value.2 + r.value.3 == |Chunks(atoms, mode)| && |r.value.0| == |store| + r.value.3
    // the same, chunk by chunk
    ensures r == None <==> exists i, j :: Disagree(store, Chunks(atoms, mode), i, j)
    ensures r.Some? ==> Recorded(store, Chunks(atoms, mode), r.value.0, r.value.1)
  {
    hide Chunks, Added, ClashesAt, Disagree, Recorded;
    ClashMeaning(store, Chunks(atoms, mode));
    RecordedIs(store, Chunks(atoms, mode));
    var chunks := MakeChunks(atoms, mode);
    var objects, refs, reused, created := store, [], 0, 0;
    AddStart(store, chunks);
    for i := 0 to |chunks|
      invariant Added(store, chunks, i, objects, refs, reused, created)
      invariant forall j :: 0 <= j < i ==> !ClashesAt(store, chunks, j)
    {
      AddStep(store, chunks, i, objects, refs, reused, created);
      var digest := ObjectName(chunks[i]);
      if digest in objects {
        if |objects[digest]| != |chunks[i]| {
          return None;
        }
        reused := reused + 1;
      } else {
        objects := objects[digest := chunks[i]];
        created := created + 1;
      }
      refs := refs + [Ref(digest, |chunks[i]|)];
    }
    AddEnd(store, chunks, objects, refs, reused, created);
    r := Some((objects, refs, reused, created));
  }

  lemma AddEnd(store: Store, chunks: seq<Bytes>, objects: Store, refs: seq<Ref>, reused: nat, created: nat)
    requires Added(store, chunks, |chunks|, objects, refs, reused, created)
    ensures objects == PutAll(store, chunks) && refs == Refs(chunks)
    ensures reused + created == |chunks| && |objects| == |store| + created
  {
    assert chunks[..|chunks|] == chunks;
  }

  lemma OneMoreObject(m: Store, k: string, v: Bytes)
    requires k !in m
    ensures |m[k := v]| == |m| + 1
  {
    assert m[k := v].Keys == m.Keys + {k};
    assert |m.Keys| == |m| && |m[k := v].Keys| == |m[k := v]|;
  }

  /** Every object carries the name of its content. */
  ghost predicate Sound(store: Store, universe: iset<Bytes>) {
    forall h :: h in store ==> store[h] in universe && ObjectName(store[h]) == h
  }

  ghost predicate Within(chunks: seq<Bytes>, universe: iset<Bytes>) {
    forall i :: 0 <= i < |chunks| ==> chunks[i] in universe
  }

  function Names(chunks: seq<Bytes>): set<string> {
    set i | 0 <= i < |chunks| :: ObjectName(chunks[i])
  }

  lemma {:induction false} PutAllMeaning(store: Store, chunks: seq<Bytes>)
    ensures PutAll(store, chunks).Keys == store.Keys + Names(chunks)
    ensures forall h :: h in store ==> PutAll(store, chunks)[h] == store[h]
  {
    if chunks != [] {
      var k := |chunks| - 1;
      PutAllMeaning(store, chunks[..k]);
      assert Names(chunks) == Names(chunks[..k]) + {ObjectName(chunks[k])};
    }
  }

  lemma {:induction false} PutAllSound(store: Store, chunks: seq<Bytes>, universe: iset<Bytes>)
    requires Sound(store, universe) && Within(chunks, universe)
    ensures Sound(PutAll(store, chunks), universe)
  {
    if chunks != [] {
      var k := |chunks| - 1;
      assert chunks[k] in universe;
      PutAllSound(store, chunks[..k], universe);
    }
  }

  /** The store has these chunks. */
  ghost predicate Has(store: Store, chunks: seq<Bytes>) {
    forall i :: 0 <= i < |chunks| ==> ObjectName(chunks[i]) in store && store[ObjectName(chunks[i])] == chunks[i]
  }

  /** Without collisions an added version is stored, whatever was in the store before, and the
      length test never fires. */
  lemma AddedIsStored(store: Store, chunks: seq<Bytes>, universe: iset<Bytes>)
    requires CollisionFree(universe) && Sound(store, universe) && Within(chunks, universe)
    ensures Has(PutAll(store, chunks), chunks) && !Clashes(store, chunks)
  {
    PutAllMeaning(store, chunks);
    PutAllSound(store, chunks, universe);
    forall i | 0 <= i < |chunks| ensures ObjectName(chunks[i]) in PutAll(store, chunks) {
      assert ObjectName(chunks[i]) in Names(chunks);
    }
    forall i | 0 <= i < |chunks| ensures !ClashesAt(store, chunks, i) {
      PutAllSound(store, chunks[..i], universe);
    }
  }

  lemma NamesConcat(a: seq<Bytes>, b: seq<Bytes>)
    ensures Names(a + b) == Names(a) + Names(b)
  {
    forall h | h in Names(b) ensures h in Names(a + b) {
      var i :| 0 <= i < |b| && ObjectName(b[i]) == h;
      assert (a + b)[|a| + i] == b[i];
    }
    forall h | h in Names(a) ensures h in Names(a + b) {
      var i :| 0 <= i < |a| && ObjectName(a[i]) == h;
      assert (a + b)[i] == a[i];
    }
  }

  /** After the streams have resynchronised, the second version adds no object for the common
      tail: what it adds comes from the part before. */
  lemma TailAddsNothing(store: Store, xs: seq<Bytes>, zs: seq<Bytes>, tail: seq<Bytes>, mode: Mode)
    requires FeedAll(xs, mode).buffer == [] && FeedAll(zs, mode).buffer == []
    ensures var first := PutAll(store, Chunks(xs + tail, mode));
      PutAll(first, Chunks(zs + tail, mode)).Keys - first.Keys <= Names(Chunks(zs, mode))
  {
    hide Chunks;
    Composition(xs, tail, mode);
    Composition(zs, tail, mode);
    var first := PutAll(store, Chunks(xs + tail, mode));
    PutAllMeaning(store, Chunks(xs + tail, mode));
    PutAllMeaning(first, Chunks(zs + tail, mode));
    NamesConcat(Chunks(xs, mode), Chunks(tail, mode));
    NamesConcat(Chunks(zs, mode), Chunks(tail, mode));
  }

  // ----- ranges -----

  /** What the references stand for. */
  function ContentOf(store: Store, refs: seq<Ref>): Bytes {
    if refs == [] then []
    else
      var last := refs[|refs| - 1];
      ContentOf(store, refs[..|refs| - 1]) + if last.digest in store then store[last.digest] else []
  }

  ghost predicate Readable(store: Store, refs: seq<Ref>) {
    forall i :: 0 <= i < |refs| ==> refs[i].digest in store && |store[refs[i].digest]| == refs[i].size
  }

  function Min(a: int, b: int): int {
    if a < b then a else b
  }

  function Max(a: int, b: int): int {
    if a > b then a else b
  }

  /** The part of `whole` between two positions, cut to what is there. */
  function Between(whole: Bytes, from: nat, to: nat): Bytes {
    var f, t := Min(from, |whole|), Min(to, |whole|);
    if f <= t then whole[f..t] else []
  }

  /** `version_range`: only the chunks that overlap are read, and the loop ends early. */
  method VersionRange(store: Store, refs: seq<Ref>, position: nat, length: nat) returns (r: Option<Bytes>)
    requires Readable(store, refs)
    ensures r.Some? <==> position + length <= |ContentOf(store, refs)| || length == 0
    ensures r.Some? ==> r.value == Between(ContentOf(store, refs), position, position + length)
  {
    hide Between, ContentOf;
    var data: Bytes, start, i := [], 0, 0;
    RangeStart(store, refs, position, position + length);
    while i < |refs| && (i == 0 || start < position + length)
      invariant i <= |refs| && start == |ContentOf(store, refs[..i])|
      invariant data == Between(ContentOf(store, refs[..i]), position, position + length)
    {
      var chunk, size := store[refs[i].digest], refs[i].size;
      var end := start + size;
      RangeStep(store, refs, i, position, position + length);
      if position < end && position + length > start {
        var s := Max(0, position - start);
        var take := Min(size, position + length - start) - s;
        data := data + chunk[s..s + take];
      }
      start, i := end, i + 1;
    }
    RestOfRange(store, refs, i, position, position + length);
    r := if |data| != length then None else Some(data);
  }

  lemma RangeStart(store: Store, refs: seq<Ref>, from: nat, to: nat)
    ensures ContentOf(store, refs[..0]) == [] && Between([], from, to) == []
  {
  }

  /** What one chunk contributes to a range. */
  lemma ChunkOfRange(before: Bytes, chunk: Bytes, from: nat, to: nat)
    requires from <= to
    ensures var start, end := |before|, |before| + |chunk|;
      if from < end && to > start then
        var s := Max(0, from - start);
        var take := Min(|chunk|, to - start) - s;
        0 <= s <= s + take <= |chunk|
          && Between(before + chunk, from, to) == Between(before, from, to) + chunk[s..s + take]
      else
        Between(before + chunk, from, to) == Between(before, from, to)
  {
  }

  lemma RangeStep(store: Store, refs: seq<Ref>, i: nat, from: nat, to: nat)
    requires i < |refs| && Readable(store, refs) && from <= to
    ensures var chunk, before, after :=
      store[refs[i].digest], ContentOf(store, refs[..i]), ContentOf(store, refs[..i + 1]);
      var start, end := |before|, |before| + refs[i].size;
      && |after| == end && |chunk| == refs[i].size
      && if from < end && to > start then
           var s := Max(0, from - start);
           var take := Min(refs[i].size, to - start) - s;
           0 <= s <= s + take <= |chunk| && Between(after, from, to) == Between(before, from, to) + chunk[s..s + take]
         else
           Between(after, from, to) == Between(before, from, to)
  {
    hide Between;
    assert refs[..i + 1][..i] == refs[..i];
    ChunkOfRange(ContentOf(store, refs[..i]), store[refs[i].digest], from, to);
  }

  lemma {:induction false} ContentGrows(store: Store, refs: seq<Ref>, i: nat)
    requires i <= |refs|
    ensures ContentOf(store, refs[..i]) <= ContentOf(store, refs)
  {
    if i == |refs| {
      assert refs[..i] == refs;
    } else {
      ContentGrows(store, refs[..|refs| - 1], i);
      assert refs[..|refs| - 1][..i] == refs[..i];
    }
  }

  /** Stopping early leaves nothing out. */
  lemma RestOfRange(store: Store, refs: seq<Ref>, i: nat, from: nat, to: nat)
    requires i <= |refs| && from <= to && (i == |refs| || |ContentOf(store, refs[..i])| >= to)
    ensures Between(ContentOf(store, refs), from, to) == Between(ContentOf(store, refs[..i]), from, to)
    ensures |Between(ContentOf(store, refs), from, to)| == to - from <==> to <= |ContentOf(store, refs)| || from == to
  {
    hide ContentOf, Between;
    ContentGrows(store, refs, i);
    if i == |refs| { assert refs[..i] == refs; }
    RangeSettled(ContentOf(store, refs), ContentOf(store, refs[..i]), from, to);
  }

  lemma RangeSettled(whole: Bytes, part: Bytes, from: nat, to: nat)
    requires from <= to && part <= whole && (part == whole || |part| >= to)
    ensures Between(whole, from, to) == Between(part, from, to)
    ensures |Between(whole, from, to)| == to - from <==> to <= |whole| || from == to
  {
  }

  /** For a stored version, a range read is a slice of the stream. */
  lemma {:induction false} StoredContent(store: Store, chunks: seq<Bytes>)
    requires Has(store, chunks)
    ensures ContentOf(store, Refs(chunks)) == Join(chunks) && Readable(store, Refs(chunks))
  {
    if chunks != [] {
      var k := |chunks| - 1;
      StoredContent(store, chunks[..k]);
      assert ObjectName(chunks[k]) in store;
    }
  }

  // ----- the changed source -----

  const AT := MIB

  /** The source with the addition inserted at its place. */
  function Changed(source: Bytes, addition: Option<Bytes>): Bytes {
    if addition.Some? && |source| >= AT then source[..AT] + addition.value + source[AT..] else source
  }

  /** What one read delivers. */
  function Piece(source: Bytes, addition: Option<Bytes>, pos: nat, remaining: nat): Bytes {
    if addition.Some? && AT <= pos < AT + |addition.value| then
      addition.value[pos - AT..Min(|addition.value|, pos - AT + remaining)]
    else
      var take := if addition.Some? && pos < AT then Min(remaining, AT - pos) else remaining;
      var from := if addition.None? || pos < AT then pos else pos - |addition.value|;
      Between(source, from, from + take)
  }

  /** The byte that a read at this position finds, if any: in a source that ends before the
      insertion point there is a hole in front of the addition. */
  function ByteAt(source: Bytes, addition: Option<Bytes>, p: nat): Option<byte> {
    if addition.Some? && AT <= p < AT + |addition.value| then Some(addition.value[p - AT])
    else
      var q := if addition.None? || p < AT then p else p - |addition.value|;
      if q < |source| then Some(source[q]) else None
  }

  /** The bytes are those from a position on. */
  ghost predicate ReadsAt(source: Bytes, addition: Option<Bytes>, offset: nat, data: Bytes) {
    forall p :: offset <= p < offset + |data| ==> ByteAt(source, addition, p) == Some(data[p - offset])
  }

  /** A piece delivers the bytes that are there, and nothing only where there is none. */
  lemma PieceIs(source: Bytes, addition: Option<Bytes>, pos: nat, remaining: nat)
    requires remaining > 0
    ensures var p := Piece(source, addition, pos, remaining);
      |p| <= remaining && (p == [] ==> ByteAt(source, addition, pos) == None) && ReadsAt(source, addition, pos, p)
  {
  }

  /** `input_range`: the expected bytes, pieced together around the insertion. */
  method InputRange(source: Bytes, addition: Option<Bytes>, offset: nat, length: nat) returns (r: Option<Bytes>)
    ensures r.Some? <==> forall p :: offset <= p < offset + length ==> ByteAt(source, addition, p).Some?
    ensures r.Some? ==> |r.value| == length && ReadsAt(source, addition, offset, r.value)
  {
    hide ByteAt, Piece;
    var data: Bytes, remaining, pos := [], length, offset;
    while remaining > 0
      invariant pos == offset + |data| && 0 <= remaining == length - |data|
      invariant ReadsAt(source, addition, offset, data)
      decreases remaining
    {
      PieceIs(source, addition, pos, remaining);
      var part := Piece(source, addition, pos, remaining);
      if part == [] {
        return None;
      }
      PiecesJoin(source, addition, offset, data, part);
      data := data + part;
      pos, remaining := pos + |part|, remaining - |part|;
    }
    r := Some(data);
  }

  lemma PiecesJoin(source: Bytes, addition: Option<Bytes>, offset: nat, data: Bytes, part: Bytes)
    requires ReadsAt(source, addition, offset, data) && ReadsAt(source, addition, offset + |data|, part)
    ensures ReadsAt(source, addition, offset, data + part)
  {
    hide ByteAt;
  }

  /** For a source that reaches the insertion point the bytes are those of the changed source. */
  lemma BytesOfChanged(source: Bytes, addition: Option<Bytes>, p: nat)
    requires addition.Some? ==> |source| >= AT
    ensures ByteAt(source, addition, p) ==
      if p < |Changed(source, addition)| then Some(Changed(source, addition)[p]) else None
  {
  }

  /** So its ranges are the slices of the changed source. */
  lemma RangeIsSlice(source: Bytes, addition: Option<Bytes>, offset: nat, data: Bytes)
    requires addition.Some? ==> |source| >= AT
    ensures ReadsAt(source, addition, offset, data) <==>
      || data == []
      || (offset + |data| <= |Changed(source, addition)| && data == Changed(source, addition)[offset..offset + |data|])
  {
    hide Changed, ByteAt;
    var whole := Changed(source, addition);
    forall p ensures p >= 0 ==> ByteAt(source, addition, p) == if p < |whole| then Some(whole[p]) else None {
      if p >= 0 { BytesOfChanged(source, addition, p); }
    }
    if ReadsAt(source, addition, offset, data) && data != [] {
      assert ByteAt(source, addition, offset + |data| - 1).Some?;
      forall i | 0 <= i < |data| ensures data[i] == whole[offset + i] {
        assert ByteAt(source, addition, offset + i) == Some(data[i]);
      }
    }
  }

  /** What has been yielded when the file was read up to `offset`. */
  function Yielded(source: Bytes, addition: Option<Bytes>, offset: nat, inserted: bool): Bytes
    requires offset <= |source| && (addition.Some? && inserted ==> offset >= AT)
  {
    if addition.Some? && inserted then source[..AT] + addition.value + source[AT..offset] else source[..offset]
  }

  lemma YieldMore(source: Bytes, addition: Option<Bytes>, offset: nat, inserted: bool, n: nat)
    requires offset + n <= |source| && (addition.Some? && inserted ==> offset >= AT)
    ensures Yielded(source, addition, offset + n, inserted) ==
      Yielded(source, addition, offset, inserted) + source[offset..offset + n]
  {
    if addition.Some? && inserted {
      assert source[AT..offset + n] == source[AT..offset] + source[offset..offset + n];
    } else {
      assert source[..offset + n] == source[..offset] + source[offset..offset + n];
    }
  }

  /** Atoms of the whole size, then possibly one smaller at the end of the file. */
  ghost predicate Regular(atoms: seq<Bytes>, offset: nat, size: nat) {
    && (offset % ATOM == 0 || offset == size)
    && Whole(atoms) && (offset % ATOM == 0 ==> forall i :: 0 <= i < |atoms| ==> |atoms[i]| == ATOM)
  }

  lemma RegularMore(atoms: seq<Bytes>, offset: nat, size: nat, atom: Bytes)
    requires Regular(atoms, offset, size) && offset < size && |atom| == Min(size - offset, ATOM)
    ensures Regular(atoms + [atom], offset + |atom|, size)
  {
    assert offset % ATOM == 0;
    if |atom| == ATOM { assert (offset + ATOM) % ATOM == 0; }
  }

  /** `input_atoms`: atoms of the source, with the addition's atoms put in at their place. */
  method InputAtoms(source: Bytes, addition: Option<Bytes>) returns (atoms: seq<Bytes>, ok: bool)
    requires addition.Some? ==> |addition.value| == MIB
    ensures ok <==> addition.None? || |source| >= AT
    ensures ok ==> Join(atoms) == Changed(source, addition)
    ensures ok ==> Whole(atoms)
    ensures ok <==> addition.None? || |source| >= 1_048_576
    ensures addition.None? ==> Join(atoms) == source
    ensures ok && addition.Some? ==> Join(atoms) == source[..1_048_576] + addition.value + source[1_048_576..]
    ensures ok ==> forall i :: 0 <= i < |atoms| - 1 ==> |atoms[i]| == 65_536
  {
    hide Regular, Yielded;
    var offset, inserted := 0, addition.None?;
    atoms := [];
    var more := true;
    AtomsStart(source, addition);
    while more
      invariant offset <= |source| && (!more ==> offset == |source|)
      invariant inserted <==> addition.None? || offset > AT || (offset == AT && !more)
      invariant Join(atoms) == Yielded(source, addition, offset, inserted)
      invariant Regular(atoms, offset, |source|)
      decreases more, |source| - offset
    {
      if !inserted && offset == AT {
        atoms := InsertAtoms(source, addition, atoms);
        inserted := true;
      }
      var atom := source[offset..Min(|source|, offset + ATOM)];
      if atom == [] {
        more := false;
      } else {
        JoinConcat(atoms, [atom]);
        JoinOne(atom);
        YieldMore(source, addition, offset, inserted, |atom|);
        RegularMore(atoms, offset, |source|, atom);
        NotPast(atoms, offset, |source|, |atom|);
        atoms, offset := atoms + [atom], offset + |atom|;
      }
    }
    ok := inserted;
    AtomsEnd(source, addition, atoms, inserted);
  }

  lemma AtomsStart(source: Bytes, addition: Option<Bytes>)
    ensures Join([]) == Yielded(source, addition, 0, addition.None?) && Regular([], 0, |source|)
  {
  }

  /** A step from before the insertion point does not pass it. */
  lemma NotPast(atoms: seq<Bytes>, offset: nat, size: nat, n: nat)
    requires Regular(atoms, offset, size) && offset < size && 0 < n <= ATOM
    ensures offset < AT ==> offset + n <= AT
  {
    assert offset % ATOM == 0;
    assert AT == 16 * ATOM;
    assert offset == ATOM * (offset / ATOM);
  }

  lemma AtomsEnd(source: Bytes, addition: Option<Bytes>, atoms: seq<Bytes>, inserted: bool)
    requires addition.Some? && inserted ==> |source| >= AT
    requires Join(atoms) == Yielded(source, addition, |source|, inserted) && Regular(atoms, |source|, |source|)
    ensures inserted || addition.None? ==> Join(atoms) == Changed(source, addition)
    ensures Whole(atoms)
  {
    assert source[..|source|] == source;
  }

  /** The `i`-th atom of the addition. */
  lemma AdditionAtom(added: Bytes, i: nat)
    requires |added| == MIB && i < 16
    ensures 0 <= i * ATOM <= (i + 1) * ATOM <= |added|
    ensures var atom := added[i * ATOM..(i + 1) * ATOM];
      |atom| == ATOM && added[..i * ATOM] + atom == added[..(i + 1) * ATOM]
  {
  }

  method InsertAtoms(source: Bytes, addition: Option<Bytes>, before: seq<Bytes>) returns (atoms: seq<Bytes>)
    requires addition.Some? && |addition.value| == MIB && |source| >= AT
    requires Regular(before, AT, |source|) && Join(before) == Yielded(source, addition, AT, false)
    ensures Regular(atoms, AT, |source|) && Join(atoms) == Yielded(source, addition, AT, true)
  {
    hide Join;
    atoms := before;
    var added := addition.value;
    assert Join(before) + added[..0] == Join(before);
    for i := 0 to 16
      invariant Join(atoms) == Join(before) + added[..i * ATOM]
      invariant forall j :: 0 <= j < |atoms| ==> |atoms[j]| == ATOM
    {
      AdditionAtom(added, i);
      var atom := added[i * ATOM..(i + 1) * ATOM];
      JoinConcat(atoms, [atom]);
      JoinOne(atom);
      assert (Join(before) + added[..i * ATOM]) + atom == Join(before) + (added[..i * ATOM] + atom);
      atoms := atoms + [atom];
    }
    assert added[..16 * ATOM] == added;
    assert source[..AT] + added + source[AT..AT] == source[..AT] + added;
  }

  // ----- the two together -----

  /** A range of a stored version is the same range of the changed source. */
  lemma RangesAgree(store: Store, source: Bytes, addition: Option<Bytes>, atoms: seq<Bytes>, mode: Mode)
    requires Join(atoms) == Changed(source, addition) && Has(store, Chunks(atoms, mode))
    ensures ContentOf(store, Refs(Chunks(atoms, mode))) == Changed(source, addition)
    ensures Readable(store, Refs(Chunks(atoms, mode)))
  {
    hide Chunks, Changed;
    ChunksLossless(atoms, mode);
    StoredContent(store, Chunks(atoms, mode));
  }

  function Digests(refs: seq<Ref>): set<string> {
    set i | 0 <= i < |refs| :: refs[i].digest
  }

  /** `remove_unreferenced`. */
  method RemoveUnreferenced(store: Store, keep: seq<Ref>) returns (r: Store)
    ensures r == map h | h in store && h in Digests(keep) :: store[h]
  {
    hide Digests;
    var left: set<string> := store.Keys;
    var kept := Digests(keep);
    r := store;
    while left != {}
      invariant left <= store.Keys
      invariant r.Keys == set h | h in store && (h in left || h in kept)
      invariant forall h :: h in r ==> r[h] == store[h]
      decreases |left|
    {
      var h :| h in left;
      left := left - {h};
      if h !in kept {
        r := r - {h};
      }
    }
  }

  lemma OneMoreDigest(refs: seq<Ref>, r: Ref)
    ensures Digests(refs + [r]) == Digests(refs) + {r.digest}
  {
    var all := refs + [r];
    assert all[|refs|] == r && forall i :: 0 <= i < |refs| ==> all[i] == refs[i];
    forall h | h in Digests(refs) ensures h in Digests(all) {
      var i :| 0 <= i < |refs| && refs[i].digest == h;
      assert all[i].digest == h;
    }
  }

  lemma {:induction false} DigestsOfRefs(chunks: seq<Bytes>)
    ensures Digests(Refs(chunks)) == Names(chunks)
  {
    if chunks != [] {
      var k := |chunks| - 1;
      DigestsOfRefs(chunks[..k]);
      OneMoreDigest(Refs(chunks[..k]), RefOf(chunks[k]));
      assert Names(chunks) == Names(chunks[..k]) + {ObjectName(chunks[k])};
    }
  }

  function Kept(store: Store, refs: seq<Ref>): Store {
    map h | h in store && h in Digests(refs) :: store[h]
  }

  /** Two versions share one store; after the second is dropped, the store is exactly the
      first one's objects, and the first still reads back whole. */
  lemma DropSecond(first: seq<Bytes>, second: seq<Bytes>, universe: iset<Bytes>)
    requires CollisionFree(universe) && Within(first, universe) && Within(second, universe)
    ensures var both := PutAll(PutAll(map[], first), second);
      && ContentOf(both, Refs(first)) == Join(first) && ContentOf(both, Refs(second)) == Join(second)
      && Kept(both, Refs(first)).Keys == Names(first)
      && ContentOf(Kept(both, Refs(first)), Refs(first)) == Join(first)
  {
    var one := PutAll(map[], first);
    var both := PutAll(one, second);
    PutAllSound(map[], first, universe);
    AddedIsStored(map[], first, universe);
    AddedIsStored(one, second, universe);
    PutAllMeaning(map[], first);
    PutAllMeaning(one, second);
    assert Has(both, first);
    StoredContent(both, first);
    StoredContent(both, second);
    DigestsOfRefs(first);
    var kept := Kept(both, Refs(first));
    forall i | 0 <= i < |first| ensures ObjectName(first[i]) in kept {
      assert ObjectName(first[i]) in Names(first);
    }
    StoredContent(kept, first);
  }
}
