/** Whole runs: whatever sequence of captures, prunes, deletions and restarts a machine went
    through, completed or interrupted, every snapshot listed restores to the tree it captured. */
module History {
  import opened Wrappers
  import opened Content
  import opened SnapshotNames
  import opened LegacyArchive
  import opened SourceTree
  import opened Capture
  import opened Repository
  import opened RetentionPlan
  import opened Journal
  import opened PruneSpec
  import opened PruneCrash
  import opened PruneRetry
  import opened VerifyReport
  import opened Restore
  import opened RoundTrip
  import opened Power
  import opened PowerPrune
  import opened PowerExact
  import opened PowerCapture
  import Prune
  import PruneMeaning
  import PruneSteps
  import ObjectIndex

  /** A repository of which everything is on the disk, and the acts issued on it since. */
  datatype World = World(base: State, acts: seq<Act>)

  /** What the programs see. */
  function Live(w: World): State {
    Effects(w.base, w.acts)
  }

  /** A program that holds the repository's lock, or a restart. A capture or a prune issued the
      first `issued` of its acts; a capture that finished may have been published. What they
      issued stays as volatile as it was when the next program starts. A restart after a power
      loss finds the acts in `durable`; after an orderly shutdown these are all. */
  datatype Event =
    | CaptureEvent(name: string, walk: seq<Item>, issued: nat, published: Option<SnapshotNode>)
    | PruneEvent(policy: Policy, tx: string, issued: nat)
    | Restart(durable: set<nat>)

  function First(acts: seq<Act>, n: nat): seq<Act> {
    if n <= |acts| then acts[..n] else acts
  }

  function EventActs(g: State, event: Event): seq<Act> {
    match event
    case CaptureEvent(name, walk, issued, published) =>
      First(CaptureActs(g, walk), issued)
        + (if published.Some? then [Publish(name, Generation(published.value, walk))] else [])
    case PruneEvent(policy, tx, issued) => First(Issues(PruneLog(g.disk, policy, tx)), issued)
    case Restart(_) => []
  }

  function Step(w: World, event: Event): World {
    World(w.base, w.acts + EventActs(Live(w), event))
  }

  /** A source whose object files carry the names of their contents, and whose total size a
      64-bit counter holds. */
  ghost predicate SoundSource(walk: seq<Item>, universe: iset<Bytes>) {
    && IsWalk(walk)
    && RowBytes(CasRows(walk)) <= MAX_INT64
    && forall i :: 0 <= i < |walk| && CasItem(walk[i]) && CasFile(walk[i]) ==>
         DataOf(walk[i]) in universe && ObjectName(DataOf(walk[i])) == HashOf(walk[i])
  }

  /** A published directory holds what the capture produced, among the files the host adds. */
  ghost predicate Holds(node: SnapshotNode, walk: seq<Item>) {
    && node.SnapshotDir? && "objects.index" in node.files && "legacy.tar" in node.files
    && node.files["objects.index"] == RegularFile(Lines(ObjectIndex.Write(CasRows(walk))))
    && node.files["legacy.tar"] == RegularFile(Tar(ArchiveOf(walk), true))
  }

  /** What the programs allow to happen. */
  ghost predicate Allowed(w: World, event: Event, universe: iset<Bytes>) {
    match event
    case CaptureEvent(name, walk, issued, published) =>
      && SoundSource(walk, universe) && issued <= |CaptureActs(Live(w), walk)|
      && AllFromSource(walk, CaptureActs(Live(w), walk)[..issued])
      && (published.Some? ==>
            && issued == |CaptureActs(Live(w), walk)| && Capturable(Live(w).disk.objects, walk)
            && name !in Live(w).disk.snapshots
            && Canonical(name) && Committed(published.value) && Holds(published.value, walk))
    case PruneEvent(policy, tx, issued) =>
      PruneStarts(Live(w), policy, tx) && issued <= |PruneLog(Live(w).disk, policy, tx)|
    case Restart(_) => true
  }

  /** What makes an event safe against a power loss, beyond what the programs check. A prune
      removes no file and no object of a snapshot whose rename a power loss could still undo; a
      snapshot is published with settled objects only. */
  ghost predicate Careful(w: World, event: Event) {
    match event
    case CaptureEvent(_, walk, _, published) =>
      published.Some? ==> forall i :: 0 <= i < |walk| && CasItem(walk[i]) ==>
        Settled(w.base, w.acts + CaptureActs(Live(w), walk), HashOf(walk[i]))
    case PruneEvent(policy, tx, issued) => Unexposed(w.base, w.acts, LogNow(w.base, w.acts, policy, tx), issued)
    case Restart(_) => true
  }

  // ----- the invariant -----

  /** A published snapshot is a capture of its tree. */
  ghost predicate Faithful(name: string, generation: Generation, universe: iset<Bytes>) {
    && Canonical(name) && Committed(generation.node) && Holds(generation.node, generation.walk)
    && SoundSource(generation.walk, universe) && WellFormedSource(generation.walk)
  }

  ghost predicate ActKnown(a: Act, universe: iset<Bytes>) {
    && (a.Link? ==> a.data in universe)
    && (a.Publish? ==> Faithful(a.name, a.generation, universe))
  }

  ghost predicate StateKnown(g: State, universe: iset<Bytes>) {
    && (forall h :: h in g.disk.objects && g.disk.objects[h].ObjectFile? ==> g.disk.objects[h].data in universe)
    && (forall n :: n in g.saved ==> Faithful(n, g.saved[n], universe))
  }

  /** At no moment since the last restart could a power loss have left damage. */
  ghost predicate Good(w: World, universe: iset<Bytes>) {
    && InOrder(w.base, w.acts) && Tracked(w.base)
    && IntactAlong(w.base, w.acts)
    && StateKnown(w.base, universe) && (forall i :: 0 <= i < |w.acts| ==> ActKnown(w.acts[i], universe))
  }

  lemma KnownStep(g: State, a: Act, universe: iset<Bytes>)
    requires StateKnown(g, universe) && ActKnown(a, universe)
    ensures StateKnown(Effect(g, a), universe)
  {
    hide Faithful, BucketName;
    var e := Effect(g, a);
    forall h | h in e.disk.objects && e.disk.objects[h].ObjectFile? ensures e.disk.objects[h].data in universe {
      if a.Issue? { ApplyObjects(g.disk, a.op, h); }
    }
  }

  lemma ApplyObjects(d: Disk, op: Op, h: string)
    ensures h in Apply(d, op).objects ==> h in d.objects && Apply(d, op).objects[h] == d.objects[h]
  {
  }

  lemma {:induction false} LeftKnown(g: State, acts: seq<Act>, s: set<nat>, universe: iset<Bytes>)
    requires StateKnown(g, universe) && forall i :: 0 <= i < |acts| ==> ActKnown(acts[i], universe)
    ensures StateKnown(Left(g, acts, s), universe)
  {
    hide StateKnown, ActKnown, Effect;
    if acts != [] {
      var k := |acts| - 1;
      LeftKnown(g, acts[..k], s, universe);
      if k in s { KnownStep(Left(g, acts[..k], s), acts[k], universe); }
    }
  }

  lemma CapturableIsWellFormed(objects: map<string, ObjectNode>, walk: seq<Item>)
    requires IsWalk(walk) && Capturable(objects, walk)
    ensures WellFormedSource(walk)
  {
    hide Encodable, CasItem, CasFile, CanStore;
    forall i | 0 <= i < |walk| ensures Takeable(walk[i]) && Encodable(walk[i]) {
      assert Storable(objects, walk[i]);
    }
  }

  lemma SourceIsWalk(walk: seq<Item>, universe: iset<Bytes>)
    requires SoundSource(walk, universe)
    ensures IsWalk(walk)
  {
  }

  // ----- one event -----

  /** More acts, each safe. */
  lemma GoodMore(w: World, more: seq<Act>, universe: iset<Bytes>)
    requires Good(w, universe) && InOrder(Live(w), more) && Safe(w.base, w.acts, more)
    requires forall i :: 0 <= i < |more| ==> ActKnown(more[i], universe)
    ensures Good(World(w.base, w.acts + more), universe)
  {
    hide InOrder, Tracked, AllIntact, StateKnown, ActKnown, Effects;
    var all := w.acts + more;
    InOrderConcat(w.base, w.acts, more);
    forall m: nat | m <= |all| ensures AllIntact(w.base, all[..m]) {
      if m <= |w.acts| { assert all[..m] == w.acts[..m]; } else { assert all[..m] == w.acts + more[..m - |w.acts|]; }
    }
  }

  lemma NowIntact(w: World, universe: iset<Bytes>)
    requires Good(w, universe)
    ensures AllIntact(w.base, w.acts) && Intact(Live(w))
  {
    hide AllIntact, Intact, Effects;
    assert w.acts[..|w.acts|] == w.acts;
    LiveIntact(w.base, w.acts);
  }

  lemma CapturedKnown(walk: seq<Item>, acts: seq<Act>, universe: iset<Bytes>)
    requires SoundSource(walk, universe) && AllFromSource(walk, acts)
    requires forall i :: 0 <= i < |acts| ==> !acts[i].Publish?
    ensures forall i :: 0 <= i < |acts| ==> ActKnown(acts[i], universe)
  {
    hide CasItem, CasFile, DataOf, HashOf;
    forall i | 0 <= i < |acts| ensures ActKnown(acts[i], universe) {
      assert FromSource(walk, acts[i]);
    }
  }

  lemma CaptureActsOnly(g: State, walk: seq<Item>, n: nat)
    requires n <= |CaptureActs(g, walk)| && AllFromSource(walk, CaptureActs(g, walk)[..n])
    ensures forall i :: 0 <= i < n ==> CaptureAct(CaptureActs(g, walk)[i]) && !CaptureActs(g, walk)[i].Publish?
  {
    hide CaptureActs;
    CaptureLinksSynced(g, walk);
    forall i: nat | i < n ensures CaptureAct(CaptureActs(g, walk)[i]) && !CaptureActs(g, walk)[i].Publish? {
      assert LinkSynced(CaptureActs(g, walk), i);
      assert FromSource(walk, CaptureActs(g, walk)[..n][i]);
    }
  }

  /** Storing the objects of a capture, stopped anywhere. */
  lemma StoringKeeps(w: World, walk: seq<Item>, n: nat, universe: iset<Bytes>)
    requires Good(w, universe) && SoundSource(walk, universe) && n <= |CaptureActs(Live(w), walk)|
    requires AllFromSource(walk, CaptureActs(Live(w), walk)[..n])
    ensures Good(World(w.base, w.acts + CaptureActs(Live(w), walk)[..n]), universe)
  {
    hide Good, SoundSource, AllFromSource, CaptureActs, InOrder, AllIntact, Live, Safe, CaptureAct;
    var more := CaptureActs(Live(w), walk)[..n];
    CaptureActsOnly(Live(w), walk, n);
    CapturedKnown(walk, more, universe);
    CaptureInOrder(Live(w), walk);
    InOrderPrefix(Live(w), CaptureActs(Live(w), walk), n);
    NowIntact(w, universe);
    StoringIsSafe(w.base, w.acts, more);
    GoodMore(w, more, universe);
  }

  lemma {:induction false} StoringListsNothing(g: State, acts: seq<Act>)
    requires forall i :: 0 <= i < |acts| ==> CaptureAct(acts[i])
    ensures Effects(g, acts).disk.snapshots == g.disk.snapshots
  {
    hide BucketName;
    if acts != [] { StoringListsNothing(g, acts[..|acts| - 1]); }
  }

  lemma IndexIs(node: SnapshotNode, walk: seq<Item>)
    requires Holds(node, walk) && WellFormedSource(walk)
    ensures IndexOf(node) == ObjectIndex.Reading(CasRows(walk), true)
  {
    hide CasRows, Takeable, Encodable, ArchiveOf;
    IndexReadsBack(walk);
  }

  /** After its acts a capture sees every object of its index. */
  lemma CaptureSees(g: State, walk: seq<Item>, node: SnapshotNode)
    requires IsWalk(walk) && Capturable(g.disk.objects, walk) && Holds(node, walk)
    requires Intact(Effects(g, CaptureActs(g, walk)))
    ensures RowsSeen(Effects(g, CaptureActs(g, walk)).disk, node)
  {
    hide IsWalk, Capturable, Holds, Intact, Effects, CaptureActs, CasItem, HashOf, DataOf, CasRows, StoreAll, RowStored;
    var e := Effects(g, CaptureActs(g, walk));
    CaptureStores(g, walk);
    CapturableIsWellFormed(g.disk.objects, walk);
    IndexIs(node, walk);
    forall i | 0 <= i < |CasRows(walk)| ensures RowStored(e.disk, CasRows(walk)[i]) {
      var j := RowFrom(walk, i);
      StoredSize(g.disk.objects, walk, j);
      ObjectSeen(e, HashOf(walk[j]), |DataOf(walk[j])|);
    }
  }

  lemma ObjectSeen(e: State, h: string, size: nat)
    requires Intact(e) && h in e.disk.objects && e.disk.objects[h].ObjectFile? && |e.disk.objects[h].data| == size
    ensures RowStored(e.disk, ObjectIndex.Row(h, size))
  {
    hide SnapshotRecoverable;
  }

  lemma StoredSize(objects: map<string, ObjectNode>, walk: seq<Item>, j: nat)
    requires IsWalk(walk) && Capturable(objects, walk) && j < |walk| && CasItem(walk[j])
    ensures var after := StoreAll(objects, walk); var h := HashOf(walk[j]);
      h in after && after[h].ObjectFile? && |after[h].data| == |DataOf(walk[j])|
  {
    hide IsWalk, CasItem, HashOf, DataOf, CasFile, StoreAll;
    var h := HashOf(walk[j]);
    assert Storable(objects, walk[j]);
    StoreAllMeaning(objects, walk, h);
    if h !in objects {
      var i :| 0 <= i < |walk| && CasItem(walk[i]) && HashOf(walk[i]) == h
        && StoreAll(objects, walk)[h] == ObjectFile(DataOf(walk[i]));
      assert Storable(objects, walk[i]);
      if i != j { OnePath(walk, i, j); }
    }
  }

  lemma OnePath(walk: seq<Item>, i: nat, j: nat)
    requires IsWalk(walk) && i < |walk| && j < |walk| && i != j && CasFile(walk[i]) && CasFile(walk[j])
    ensures HashOf(walk[i]) != HashOf(walk[j])
  {
    hide CasFile, HashOf;
    if i < j { HashesDiffer(walk[i], walk[j]); } else { HashesDiffer(walk[j], walk[i]); }
  }

  lemma RowsSettledMeaning(g: State, acts: seq<Act>, node: SnapshotNode, walk: seq<Item>)
    requires Holds(node, walk) && WellFormedSource(walk)
    ensures RowsSettled(g, acts, node) <==>
      forall i :: 0 <= i < |walk| && CasItem(walk[i]) ==> Settled(g, acts, HashOf(walk[i]))
  {
    hide Holds, WellFormedSource, Settled, CasItem, HashOf, DataOf, CasRows;
    IndexIs(node, walk);
    forall i | 0 <= i < |CasRows(walk)| ensures exists j ::
      0 <= j < |walk| && CasItem(walk[j]) && HashOf(walk[j]) == CasRows(walk)[i].hash
    {
      var j := RowFrom(walk, i);
    }
    forall j | 0 <= j < |walk| && CasItem(walk[j])
      ensures exists i :: 0 <= i < |CasRows(walk)| && CasRows(walk)[i].hash == HashOf(walk[j])
    {
      var i := RowFor(walk, j);
    }
  }

  lemma PublishOne(w: World, name: string, generation: Generation, universe: iset<Bytes>)
    requires Good(w, universe) && name !in Live(w).disk.snapshots && Faithful(name, generation, universe)
    requires AllIntact(w.base, w.acts + [Publish(name, generation)])
    ensures Good(World(w.base, w.acts + [Publish(name, generation)]), universe)
  {
    hide Good, Faithful, AllIntact, Effects;
    var more := [Publish(name, generation)];
    NowIntact(w, universe);
    assert w.acts + more[..0] == w.acts && w.acts + more[..1] == w.acts + more;
    assert more[..0] == [];
    assert Effects(Live(w), []) == Live(w) by { NothingDone(Live(w)); }
    GoodMore(w, more, universe);
  }

  /** A finished capture: publishing it is safe exactly if that was careful. */
  lemma PublishingIsSafeExactly(w: World, event: Event, universe: iset<Bytes>)
    requires Good(w, universe) && Allowed(w, event, universe) && event.CaptureEvent? && event.published.Some?
    ensures AllIntact(w.base, w.acts + EventActs(Live(w), event)) <==> Careful(w, event)
    ensures Careful(w, event) ==> Good(Step(w, event), universe)
  {
    hide Good, SoundSource, Holds, Committed, Canonical, CaptureActs, AllFromSource, AllIntact, Capturable, Settled,
      RowsSettled, RowsSeen, Intact, CasItem, HashOf, Effects;
    var CaptureEvent(name, walk, issued, published) := event;
    var more, generation := CaptureActs(Live(w), walk), Generation(published.value, walk);
    var w' := World(w.base, w.acts + more);
    assert more[..issued] == more;
    assert w.acts + (more + [Publish(name, generation)]) == w'.acts + [Publish(name, generation)];
    StoringKeeps(w, walk, issued, universe);
    CapturedLive(w, walk, issued);
    NowIntact(w', universe);
    SourceIsWalk(walk, universe);
    CaptureSees(Live(w), walk, published.value);
    CapturableIsWellFormed(Live(w).disk.objects, walk);
    RowsSettledMeaning(w.base, w'.acts, published.value, walk);
    GoodInOrder(w', universe);
    PublishIsSafeExactly(w.base, w'.acts, name, generation);
    if Careful(w, event) { PublishOne(w', name, generation, universe); }
  }

  lemma GoodInOrder(w: World, universe: iset<Bytes>)
    requires Good(w, universe)
    ensures InOrder(w.base, w.acts) && Tracked(w.base) && IntactAlong(w.base, w.acts)
  {
    hide InOrder, Tracked, AllIntact;
  }

  lemma CapturedLive(w: World, walk: seq<Item>, n: nat)
    requires n <= |CaptureActs(Live(w), walk)| && AllFromSource(walk, CaptureActs(Live(w), walk)[..n])
    ensures var w' := World(w.base, w.acts + CaptureActs(Live(w), walk)[..n]);
      && Live(w') == Effects(Live(w), CaptureActs(Live(w), walk)[..n])
      && Live(w').disk.snapshots == Live(w).disk.snapshots
  {
    hide CaptureActs, AllFromSource, Effects, CaptureAct;
    var more := CaptureActs(Live(w), walk)[..n];
    EffectsConcat(w.base, w.acts, more);
    CaptureActsOnly(Live(w), walk, n);
    StoringListsNothing(Live(w), more);
  }

  lemma CaptureKeeps(w: World, event: Event, universe: iset<Bytes>)
    requires Good(w, universe) && event.CaptureEvent? && Allowed(w, event, universe) && Careful(w, event)
    ensures Good(Step(w, event), universe)
  {
    hide Good, SoundSource, Holds, Committed, Canonical, CaptureActs, AllFromSource, Live, Capturable, Careful;
    var CaptureEvent(name, walk, issued, published) := event;
    if published.Some? {
      PublishingIsSafeExactly(w, event, universe);
    } else {
      StoringKeeps(w, walk, issued, universe);
      var more := CaptureActs(Live(w), walk)[..issued];
      assert more + [] == more;
    }
  }

  lemma PruneKnown(ops: seq<Op>, universe: iset<Bytes>)
    ensures forall i :: 0 <= i < |ops| ==> ActKnown(Issues(ops)[i], universe)
  {
  }

  /** A prune or deletion, stopped anywhere: it is safe at each of its moments exactly if it was
      careful. */
  lemma PruningIsSafeExactly(w: World, event: Event, universe: iset<Bytes>)
    requires Good(w, universe) && event.PruneEvent? && Allowed(w, event, universe)
    ensures Safe(w.base, w.acts, EventActs(Live(w), event)) <==> Careful(w, event)
    ensures Careful(w, event) ==> Good(Step(w, event), universe)
  {
    hide Good, PruneStarts, PruneLog, InOrder, Tracked, IntactAlong, Safe, UpTo, Effects, Unexposed;
    var PruneEvent(policy, tx, issued) := event;
    var log := PruneLog(Live(w).disk, policy, tx);
    GoodInOrder(w, universe);
    LiveTracked(w.base, w.acts);
    LogInOrder(Live(w), policy, tx, issued);
    StoppedIsSafeExactly(w.base, w.acts, policy, tx, issued);
    assert Issues(log)[..issued] == Issues(log[..issued]);
    PruneKnown(log[..issued], universe);
    if Careful(w, event) { GoodMore(w, Issues(log[..issued]), universe); }
  }

  lemma PruneKeeps(w: World, event: Event, universe: iset<Bytes>)
    requires Good(w, universe) && event.PruneEvent? && Allowed(w, event, universe) && Careful(w, event)
    ensures Good(Step(w, event), universe)
  {
    hide Good, Allowed, Careful, Step;
    PruningIsSafeExactly(w, event, universe);
  }

  lemma NothingIssuedYet(g: State)
    requires Intact(g)
    ensures InOrder(g, []) && AllIntact(g, [])
  {
    hide Intact;
    forall s ensures Left(g, [], s) == g {}
  }

  /** Every event, stopped anywhere: it is safe at each of its moments exactly if it was careful. */
  lemma EventIsSafeExactly(w: World, event: Event, universe: iset<Bytes>)
    requires Good(w, universe) && Allowed(w, event, universe)
    ensures Safe(w.base, w.acts, EventActs(Live(w), event)) <==> Careful(w, event)
  {
    hide Good, PruneStarts, PruneLog, IntactAlong, AllIntact, CaptureActs, SoundSource, AllFromSource, Capturable,
      Holds, Committed, Canonical, Settled, CasItem, HashOf, Effects, Unexposed;
    NowIntact(w, universe);
    match event
    case PruneEvent(_, _, _) => PruningIsSafeExactly(w, event, universe);
    case CaptureEvent(name, walk, issued, published) =>
      var full := CaptureActs(Live(w), walk);
      StoringSafe(w, walk, issued, universe);
      assert full[..issued] + [] == full[..issued];
      if published.Some? {
        PublishingIsSafeExactly(w, event, universe);
        SafeThenOne(w.base, w.acts, full[..issued], Publish(name, Generation(published.value, walk)));
      }
    case Restart(_) => assert forall m: nat :: m <= 0 ==> w.acts + [][..m] == w.acts;
  }

  lemma StoringSafe(w: World, walk: seq<Item>, n: nat, universe: iset<Bytes>)
    requires Good(w, universe) && n <= |CaptureActs(Live(w), walk)|
    requires AllFromSource(walk, CaptureActs(Live(w), walk)[..n])
    ensures Safe(w.base, w.acts, CaptureActs(Live(w), walk)[..n])
  {
    hide Good, CaptureActs, Live, AllIntact, Safe, CaptureAct, AllFromSource;
    CaptureActsOnly(Live(w), walk, n);
    NowIntact(w, universe);
    StoringIsSafe(w.base, w.acts, CaptureActs(Live(w), walk)[..n]);
  }

  lemma SafeThenOne(g: State, acts: seq<Act>, more: seq<Act>, a: Act)
    requires Safe(g, acts, more)
    ensures Safe(g, acts, more + [a]) <==> AllIntact(g, acts + (more + [a]))
  {
    hide AllIntact;
    var all := more + [a];
    assert all[..|all|] == all;
    forall m: nat | m <= |more| ensures AllIntact(g, acts + all[..m]) { assert all[..m] == more[..m]; }
  }

  // ----- events that are not careful -----

  /** What the programs see, as if all of it were on the disk. */
  function Settle(w: World): World {
    World(Live(w), [])
  }

  lemma SettledGood(g: State, universe: iset<Bytes>)
    requires Intact(g) && Tracked(g) && StateKnown(g, universe)
    ensures Good(World(g, []), universe)
  {
    hide InOrder, Tracked, Intact, StateKnown, ActKnown;
    NothingIssuedYet(g);
    assert World(g, []).acts[..0] == [];
  }

  lemma SettleKeeps(w: World, universe: iset<Bytes>)
    requires Good(w, universe)
    ensures Good(Settle(w), universe) && Live(Settle(w)) == Live(w)
  {
    hide InOrder, Tracked, Intact, StateKnown, ActKnown, IntactAlong;
    NowIntact(w, universe);
    LiveTracked(w.base, w.acts);
    LeftKnown(w.base, w.acts, All(|w.acts|), universe);
    LeftAll(w.base, w.acts, All(|w.acts|));
    SettledGood(Live(w), universe);
    NothingDone(Live(w));
  }

  lemma StepOver(w: World, event: Event)
    ensures Live(Step(w, event)) == Effects(Live(w), EventActs(Live(w), event))
  {
    hide Effects, EventActs;
    EffectsConcat(w.base, w.acts, EventActs(Live(w), event));
  }

  /** On a repository with nothing volatile every prune is careful. */
  lemma PruneOnSettled(g: State, event: Event, universe: iset<Bytes>)
    requires Good(World(g, []), universe) && event.PruneEvent? && Allowed(World(g, []), event, universe)
    ensures Good(Step(World(g, []), event), universe)
  {
    hide Good, PruneStarts, PruneLog, InOrder, Tracked, IntactAlong, Unexposed, RenamePending;
    var w := World(g, []);
    GoodInOrder(w, universe);
    NoRename();
    GuardedIsUnexposed(g, [], event.policy, event.tx, event.issued);
    PruneKeeps(w, event, universe);
  }

  lemma NoRename()
    ensures !RenamePending([])
  {
  }

  /** What the programs see after an event, careful or not, is undamaged. */
  lemma LiveKeeps(w: World, event: Event, universe: iset<Bytes>)
    requires Good(w, universe) && Allowed(w, event, universe)
    ensures Good(Settle(Step(w, event)), universe)
  {
    hide Good, PruneStarts, PruneLog, CaptureActs, SoundSource, AllFromSource, Capturable, Holds, Committed, Canonical,
      Effects, EventActs;
    SettleKeeps(w, universe);
    var v := Settle(w);
    StepOver(w, event);
    StepOver(v, event);
    match event
    case PruneEvent(_, _, _) =>
      PruneOnSettled(Live(w), event, universe);
      SettleKeeps(Step(v, event), universe);
    case CaptureEvent(_, _, _, _) => CaptureSeenGood(v, event, universe);
    case Restart(_) => NothingMore(v, event);
  }

  lemma NothingMore(w: World, event: Event)
    requires event.Restart?
    ensures EventActs(Live(w), event) == [] && Effects(Live(w), []) == Live(w)
  {
  }

  lemma CaptureSeenGood(w: World, event: Event, universe: iset<Bytes>)
    requires Good(w, universe) && event.CaptureEvent? && Allowed(w, event, universe)
    ensures Good(Settle(Step(w, event)), universe)
  {
    hide Good, SoundSource, Holds, Committed, Canonical, CaptureActs, AllFromSource, Capturable, RowsSeen, Intact,
      Effects, StateKnown, Tracked;
    var CaptureEvent(name, walk, issued, published) := event;
    var more := CaptureActs(Live(w), walk)[..issued];
    var w' := World(w.base, w.acts + more);
    StoringKeeps(w, walk, issued, universe);
    SettleKeeps(w', universe);
    assert more + [] == more;
    if published.Some? {
      var a := Publish(name, Generation(published.value, walk));
      assert w.acts + (more + [a]) == w'.acts + [a];
      CapturedLive(w, walk, issued);
      NowIntact(w', universe);
      SourceIsWalk(walk, universe);
      assert CaptureActs(Live(w), walk)[..issued] == CaptureActs(Live(w), walk);
      CaptureSees(Live(w), walk, published.value);
      CapturableIsWellFormed(Live(w).disk.objects, walk);
      EffectsOne(w.base, w'.acts, a);
      PublishSeen(Live(w'), a, universe);
      GoodState(Settle(w'), universe);
      TrackedStep(Live(w'), a);
      KnownStep(Live(w'), a, universe);
      SettledGood(Effect(Live(w'), a), universe);
    }
  }

  lemma GoodState(w: World, universe: iset<Bytes>)
    requires Good(w, universe)
    ensures Tracked(w.base) && StateKnown(w.base, universe)
  {
    hide Tracked, StateKnown;
  }

  lemma PublishSeen(g: State, a: Act, universe: iset<Bytes>)
    requires Intact(g) && a.Publish? && RowsSeen(g.disk, a.generation.node)
    ensures Intact(Effect(g, a))
  {
    hide Intact, RowStored, IndexOf;
    ActIntact(g, a);
  }

  /** The first snapshot that has an object in a bucket newer than the last restart is never
      published carefully. */
  lemma NewBucketIsCareless(w: World, event: Event, i: nat)
    requires event.CaptureEvent? && event.published.Some? && i < |event.walk| && CasItem(event.walk[i])
    requires BucketName(HashOf(event.walk[i])) !in w.base.buckets
    ensures !Careful(w, event)
  {
    hide CasItem, HashOf, BucketName, CaptureActs, Effects;
    var w' := w.acts + CaptureActs(Live(w), event.walk);
    assert !Settled(w.base, w', HashOf(event.walk[i]));
  }

  // ----- runs -----

  /** The repository as the last restart found it, the acts issued up to the end of the last
      event that was not careful, and the acts issued since. */
  datatype Machine = Machine(base: State, risky: seq<Act>, recent: seq<Act>)

  /** The machine if a power loss spares what was issued before the careful events. */
  function Since(m: Machine): World {
    World(Effects(m.base, m.risky), m.recent)
  }

  function Seen(m: Machine): State {
    Live(Since(m))
  }

  ghost function Next(m: Machine, event: Event): Machine {
    match event
    case Restart(durable) => Machine(Left(m.base, m.risky + m.recent, durable), [], [])
    case _ =>
      var recent := m.recent + EventActs(Seen(m), event);
      if Careful(Since(m), event) then m.(recent := recent) else Machine(m.base, m.risky + recent, [])
  }

  /** A cut that spares what was issued up to the end of the last event that was not careful. */
  ghost predicate Spares(m: Machine, cut: set<nat>) {
    Cut(m.risky + m.recent, cut) && forall i: nat :: i < |m.risky| ==> i in cut
  }

  ghost predicate NextAllowed(m: Machine, event: Event, universe: iset<Bytes>) {
    Allowed(Since(m), event, universe) && (event.Restart? ==> Spares(m, event.durable))
  }

  ghost function Run(m: Machine, events: seq<Event>): Machine {
    if events == [] then m else Next(Run(m, events[..|events| - 1]), events[|events| - 1])
  }

  ghost predicate RunAllowed(m: Machine, events: seq<Event>, universe: iset<Bytes>) {
    events != [] ==>
      && RunAllowed(m, events[..|events| - 1], universe)
      && NextAllowed(Run(m, events[..|events| - 1]), events[|events| - 1], universe)
  }

  /** The acts of a cut that come after the first `n`, counted from there. */
  function After(cut: set<nat>, n: nat, k: nat): (s: set<nat>)
    ensures forall i: nat :: i in s <==> i < k && n + i in cut
  {
    if k == 0 then {} else After(cut, n, k - 1) + if n + (k - 1) in cut then {k - 1} else {}
  }

  lemma CutAfter(a: seq<Act>, b: seq<Act>, cut: set<nat>)
    requires Cut(a + b, cut)
    ensures Cut(b, After(cut, |a|, |b|))
  {
    hide Places;
    var all, s := a + b, After(cut, |a|, |b|);
    forall i, j | 0 <= i < j < |b| && j in s && !(Places(b[i]) !! Places(b[j])) ensures i in s {
      assert all[|a| + i] == b[i] && all[|a| + j] == b[j];
    }
    forall i, j, dir | 0 <= i < j < |b| && dir in Places(b[i]) && SyncOf(b[j], dir) ensures i in s {
      assert all[|a| + i] == b[i] && all[|a| + j] == b[j];
    }
  }

  lemma {:induction false} LeftAfter(g: State, a: seq<Act>, b: seq<Act>, cut: set<nat>, s: set<nat>)
    requires forall i: nat :: i < |a| ==> i in cut
    requires forall i: nat :: i < |b| ==> (i in s <==> |a| + i in cut)
    ensures Left(g, a + b, cut) == Left(Effects(g, a), b, s)
  {
    hide Effect, Effects;
    if b == [] {
      assert a + b == a;
      LeftAll(g, a, cut);
    } else {
      var k := |b| - 1;
      assert (a + b)[..|a + b| - 1] == a + b[..k];
      LeftAfter(g, a, b[..k], cut, s);
    }
  }

  /** What a power loss leaves of a good machine, if it spares the risky acts. */
  lemma SparedIsGood(m: Machine, cut: set<nat>, universe: iset<Bytes>)
    requires Good(Since(m), universe) && Spares(m, cut)
    ensures var g := Left(m.base, m.risky + m.recent, cut); Intact(g) && Tracked(g) && StateKnown(g, universe)
  {
    hide InOrder, Tracked, Intact, StateKnown, ActKnown, IntactAlong, Left, Effects, Cut;
    var w, s := Since(m), After(cut, |m.risky|, |m.recent|);
    CutAfter(m.risky, m.recent, cut);
    LeftAfter(m.base, m.risky, m.recent, cut, s);
    NowIntact(w, universe);
    CutIsIntact(w.base, w.acts, s);
    LeftTracked(w.base, w.acts, s);
    LeftKnown(w.base, w.acts, s, universe);
  }

  lemma NextKeeps(m: Machine, event: Event, universe: iset<Bytes>)
    requires Good(Since(m), universe) && NextAllowed(m, event, universe)
    ensures Good(Since(Next(m, event)), universe)
  {
    hide Good, Allowed, Careful, EventActs, Effects, Left;
    var w := Since(m);
    match event
    case Restart(durable) =>
      SparedIsGood(m, durable, universe);
      var g := Left(m.base, m.risky + m.recent, durable);
      SettledGood(g, universe);
      NothingDone(g);
    case _ =>
      if Careful(w, event) {
        CarefulKeeps(w, event, universe);
      } else {
        LiveKeeps(w, event, universe);
        EffectsConcat(m.base, m.risky, m.recent + EventActs(Seen(m), event));
      }
  }

  lemma CarefulKeeps(w: World, event: Event, universe: iset<Bytes>)
    requires Good(w, universe) && Allowed(w, event, universe) && Careful(w, event) && !event.Restart?
    ensures Good(Step(w, event), universe)
  {
    hide Good, Allowed, Careful, Step;
    match event
    case CaptureEvent(_, _, _, _) => CaptureKeeps(w, event, universe);
    case PruneEvent(_, _, _) => PruneKeeps(w, event, universe);
  }

  lemma {:induction false} RunKeeps(m: Machine, events: seq<Event>, universe: iset<Bytes>)
    requires Good(Since(m), universe) && RunAllowed(m, events, universe)
    ensures Good(Since(Run(m, events)), universe)
  {
    hide Good, NextAllowed, Next, Since;
    if events != [] {
      var k := |events| - 1;
      RunKeeps(m, events[..k], universe);
      NextKeeps(Run(m, events[..k]), events[k], universe);
    }
  }

  /** An empty repository with some bucket directories. */
  function Empty(buckets: set<string>): Machine {
    Machine(State(Disk(map[], map[], false, map[]), buckets, {}, map[]), [], [])
  }

  lemma EmptyIsGood(buckets: set<string>, universe: iset<Bytes>)
    ensures Good(Since(Empty(buckets)), universe)
  {
    var g := Empty(buckets).base;
    NothingDone(g);
    SettledGood(g, universe);
  }

  // ----- what a listed snapshot restores to -----

  /** Every stored object carries the name of its content. */
  ghost predicate StoreSound(objects: map<string, ObjectNode>, universe: iset<Bytes>) {
    forall h :: h in objects ==>
      objects[h].ObjectFile? && objects[h].data in universe && ObjectName(objects[h].data) == h
  }

  ghost predicate SnapshotKept(d: Disk, n: string, walk: seq<Item>, universe: iset<Bytes>) {
    && n in d.snapshots && Canonical(n) && Committed(d.snapshots[n]) && Holds(d.snapshots[n], walk)
    && SoundSource(walk, universe) && WellFormedSource(walk)
    && forall i :: 0 <= i < |walk| && CasItem(walk[i]) ==> HashOf(walk[i]) in d.objects
  }

  lemma RowsAre(d: Disk, n: string, walk: seq<Item>)
    requires n in d.snapshots && Holds(d.snapshots[n], walk) && WellFormedSource(walk)
    ensures RowsOf(d, n) == CasRows(walk) && IndexOf(d.snapshots[n]).ok
    ensures ReadingOf(d, n) == ObjectIndex.Reading(CasRows(walk), true)
  {
    hide CasRows, Takeable, Encodable, ArchiveOf;
    IndexReadsBack(walk);
  }

  /** A listed snapshot of an undamaged state is as its capture left it. */
  lemma IntactKeeps(g: State, n: string, universe: iset<Bytes>)
    requires Intact(g) && StateKnown(g, universe) && n in g.disk.snapshots
    ensures n in g.saved && StoreSound(g.disk.objects, universe) && SnapshotKept(g.disk, n, g.saved[n].walk, universe)
  {
    hide Canonical, Committed, Holds, SoundSource, WellFormedSource, CasItem, HashOf, DataOf, CasRows, IndexOf;
    var walk := g.saved[n].walk;
    assert Faithful(n, g.saved[n], universe);
    RowsAre(g.disk, n, walk);
    forall h | h in g.disk.objects
      ensures g.disk.objects[h].ObjectFile? && g.disk.objects[h].data in universe
      ensures ObjectName(g.disk.objects[h].data) == h
    {
      assert ObjectOk(g.disk, h, true);
    }
    forall i | 0 <= i < |walk| && CasItem(walk[i]) ensures HashOf(walk[i]) in g.disk.objects {
      var r := RowFor(walk, i);
      assert SnapshotRecoverable(g.disk, n);
      assert RowOk(g.disk, RowsOf(g.disk, n)[r]);
    }
  }

  /** Under collision freeness, a stored object named like a source object is that object. */
  lemma StoredIsSource(d: Disk, n: string, walk: seq<Item>, universe: iset<Bytes>)
    requires CollisionFree(universe) && StoreSound(d.objects, universe) && SnapshotKept(d, n, walk, universe)
    ensures StoreHas(d.objects, walk)
  {
    hide CasItem, CasFile, HashOf, DataOf, Holds, Committed, Canonical, Encodable;
    forall i | 0 <= i < |walk| && CasItem(walk[i])
      ensures HashOf(walk[i]) in d.objects && d.objects[HashOf(walk[i])] == ObjectFile(DataOf(walk[i]))
    {
      assert Takeable(walk[i]);
    }
  }

  lemma RowsPass(d: Disk, walk: seq<Item>, universe: iset<Bytes>)
    requires StoreHas(d.objects, walk) && StoreSound(d.objects, universe) && RowBytes(CasRows(walk)) <= MAX_INT64
    ensures PassUpTo(d, CasRows(walk), true, |CasRows(walk)|)
  {
    hide CasItem, HashOf, DataOf, CasRows;
    var rows := CasRows(walk);
    forall i | 0 <= i < |rows| ensures Defect(d, rows[i], true, RowBytes(rows[..i])) == None {
      var j := RowFrom(walk, i);
      RowBytesGrow(rows, i + 1);
      assert rows[..i + 1][..i] == rows[..i];
    }
  }

  lemma KeptVerifies(d: Disk, n: string, walk: seq<Item>, universe: iset<Bytes>)
    requires StoreHas(d.objects, walk) && StoreSound(d.objects, universe) && SnapshotKept(d, n, walk, universe)
    ensures Verified(d, n, true) && EntriesOf(d, n) == ArchiveOf(walk)
  {
    hide WellFormedSource, Committed, Canonical, CasRows, ArchiveOf, Published, PassUpTo, Acceptable, StoreHas,
      StoreSound, IsWalk, CasItem;
    RowsAre(d, n, walk);
    WellFormedArchive(walk);
    RowsPass(d, walk, universe);
  }

  lemma WellFormedArchive(walk: seq<Item>)
    requires WellFormedSource(walk)
    ensures Acceptable(ArchiveOf(walk))
  {
    hide Takeable, Encodable;
    ArchiveAcceptable(walk);
  }

  /** Every listed snapshot of an undamaged state can be restored, and what a restore writes is
      the captured tree. */
  lemma ListedRestores(g: State, universe: iset<Bytes>, n: string, tree: Target)
    requires CollisionFree(universe) && Intact(g) && StateKnown(g, universe) && n in g.disk.snapshots
    ensures n in g.saved && Restorable(g.disk, n)
    ensures RestoredFrom(tree, g.disk, n) ==>
      forall p, f :: FileAt(tree, p, f) <==> p in FilesOf(g.saved[n].walk) && FilesOf(g.saved[n].walk)[p] == f
  {
    hide StoreHas, StoreSound, Verified, WellFormedSource, Holds, SoundSource, Committed, Canonical, CasItem, HashOf,
      Extracted, CasRows, FileAt, ArchiveOf, CollisionFree, BlobsIsFile, Intact, StateKnown;
    IntactKeeps(g, n, universe);
    var walk := g.saved[n].walk;
    StoredIsSource(g.disk, n, walk, universe);
    KeptVerifies(g.disk, n, walk, universe);
    RowsAre(g.disk, n, walk);
    NoBlobsFile(walk);
    RowsShaValid(walk);
    if RestoredFrom(tree, g.disk, n) {
      RestoredIsSource(g.disk.objects, walk, tree);
    }
  }

  /** What a restore of a listed snapshot gives: it can be done, and writes the captured tree. */
  ghost predicate Restores(g: State, n: string) {
    && n in g.saved && Restorable(g.disk, n)
    && forall tree: Target :: RestoredFrom(tree, g.disk, n) ==> IsTree(tree, g.saved[n].walk)
  }

  /** The tree has exactly the files that the source owes. */
  ghost predicate IsTree(tree: Target, walk: seq<Item>) {
    forall p, f :: FileAt(tree, p, f) <==> exists i :: 0 <= i < |walk| && walk[i].path == p && Owed(walk[i], f)
  }

  lemma TreeIs(tree: Target, walk: seq<Item>)
    requires WellFormedSource(walk)
    requires forall p, f :: FileAt(tree, p, f) <==> p in FilesOf(walk) && FilesOf(walk)[p] == f
    ensures IsTree(tree, walk)
  {
    hide FileAt, FilesOf, Owed, WellFormedSource;
    forall p, f ensures FileAt(tree, p, f) <==> exists i :: 0 <= i < |walk| && walk[i].path == p && Owed(walk[i], f) {
      FilesAreOwed(walk, p, f);
    }
  }

  lemma OneRestores(g: State, universe: iset<Bytes>, n: string)
    requires CollisionFree(universe) && Intact(g) && StateKnown(g, universe) && n in g.disk.snapshots
    ensures Restores(g, n)
  {
    hide CollisionFree, Intact, StateKnown, Restorable, RestoredFrom, FileAt, FilesOf, WellFormedSource, Holds,
      SoundSource, StoreSound, IsTree, IndexOf, CasRows;
    var none: Target := map[];
    ListedRestores(g, universe, n, none);
    IntactKeeps(g, n, universe);
    forall tree: Target | RestoredFrom(tree, g.disk, n) ensures IsTree(tree, g.saved[n].walk) {
      ListedRestores(g, universe, n, tree);
      TreeIs(tree, g.saved[n].walk);
    }
  }

  lemma AllRestore(g: State, universe: iset<Bytes>)
    requires CollisionFree(universe) && Intact(g) && StateKnown(g, universe)
    ensures forall n :: n in g.disk.snapshots ==> Restores(g, n)
  {
    hide CollisionFree, Intact, StateKnown, Restores;
    forall n | n in g.disk.snapshots ensures Restores(g, n) {
      OneRestores(g, universe, n);
    }
  }

  /** Whatever happened since the repository was empty, whatever was stopped wherever, careful or
      not, every snapshot that the programs now see restores to its captured tree. */
  lemma LiveRun(buckets: set<string>, events: seq<Event>, universe: iset<Bytes>)
    requires CollisionFree(universe) && RunAllowed(Empty(buckets), events, universe)
    ensures var g := Seen(Run(Empty(buckets), events)); forall n :: n in g.disk.snapshots ==> Restores(g, n)
  {
    hide Run, RunAllowed, CollisionFree, Intact, StateKnown, Restores, Good, Since;
    EmptyIsGood(buckets, universe);
    RunKeeps(Empty(buckets), events, universe);
    var w := Since(Run(Empty(buckets), events));
    NowIntact(w, universe);
    SettleKeeps(w, universe);
    GoodState(Settle(w), universe);
    AllRestore(Live(w), universe);
  }

  /** The main statement: the same of every state that a power loss can then leave, if it spares
      what was issued up to the end of the last event that was not careful. */
  lemma WholeRun(buckets: set<string>, events: seq<Event>, universe: iset<Bytes>, cut: set<nat>)
    requires CollisionFree(universe) && RunAllowed(Empty(buckets), events, universe)
    requires Spares(Run(Empty(buckets), events), cut)
    ensures var m := Run(Empty(buckets), events); var g := Left(m.base, m.risky + m.recent, cut);
      forall n :: n in g.disk.snapshots ==> Restores(g, n)
  {
    hide Run, RunAllowed, CollisionFree, Intact, StateKnown, Restores, Good, Since, Left, Spares, Tracked;
    EmptyIsGood(buckets, universe);
    RunKeeps(Empty(buckets), events, universe);
    var m := Run(Empty(buckets), events);
    SparedIsGood(m, cut, universe);
    AllRestore(Left(m.base, m.risky + m.recent, cut), universe);
  }

  // ----- the programs and the events -----

  /** Running the prune, however far it gets, is one of the events. */
  method PerformPrune(w: World, policy: Policy, tx: string, budget: nat)
    returns (disk: Disk, outcome: Prune.Outcome, ghost issued: nat)
    requires TxNameOk(tx) && tx !in Live(w).disk.retired && UnusedTx(Live(w), tx) && Tracked(w.base)
    ensures outcome.Refused? <==> !Ready(Live(w).disk, policy)
    ensures outcome.Refused? ==> disk == Live(w).disk
    ensures !outcome.Refused? ==>
      && Allowed(w, PruneEvent(policy, tx, issued), iset{})
      && disk == Live(Step(w, PruneEvent(policy, tx, issued))).disk
    ensures outcome.Done? ==> issued == |PruneLog(Live(w).disk, policy, tx)|
  {
    hide Ready, PruneLog, ApplyAll, Effects, Tracked, TxNameOk, InOrder, PruneMeaning.Refusable, PruneMeaning.Pruned,
      PruneMeaning.Counts, ReportOf, FinishBytes, Drops;
    var repo := new Prune.Repo(Live(w).disk, budget);
    outcome, issued := repo.Prune(policy, tx);
    disk := repo.disk;
    if !outcome.Refused? {
      LiveTracked(w.base, w.acts);
      LogInOrder(Live(w), policy, tx, issued);
      ghost var log := PruneLog(Live(w).disk, policy, tx);
      assert Issues(log)[..issued] == Issues(log[..issued]);
      EffectsConcat(w.base, w.acts, Issues(log[..issued]));
    }
  }

  /** So is running the capture; the host publishes what it produced. */
  method PerformCapture(w: World, name: string, walk: seq<Item>, budget: nat, ghost universe: iset<Bytes>)
    returns (objects: map<string, ObjectNode>, result: Option<(string, seq<TarEntry>)>, ghost event: Event)
    requires SoundSource(walk, universe)
    ensures event.CaptureEvent? && event.walk == walk && event.published == None && Allowed(w, event, universe)
    ensures objects == Live(Step(w, event)).disk.objects
    ensures result.Some? ==> event.issued == |CaptureActs(Live(w), walk)| && Capturable(Live(w).disk.objects, walk)
    ensures result.Some? ==> result.value == (ObjectIndex.Write(CasRows(walk)), ArchiveOf(walk))
  {
    hide Capturable, SoundSource, StoreAll, CaptureActs, AllFromSource, Effects;
    SourceIsWalk(walk, universe);
    ghost var issued;
    var run := new CaptureRun(Live(w).disk.objects, Live(w).buckets, budget);
    result, issued := run.Capture(walk, Live(w));
    objects := run.objects;
    event := CaptureEvent(name, walk, issued, None);
    ghost var more := CaptureActs(Live(w), walk)[..issued];
    assert more + [] == more;
    EffectsConcat(w.base, w.acts, more);
  }

  lemma {:induction false} SavedShrinks(g: State, ops: seq<Op>)
    ensures forall n :: n in Effects(g, Issues(ops)).saved ==>
      n in g.saved && Effects(g, Issues(ops)).saved[n] == g.saved[n]
  {
    hide Apply, DropListedFile;
    if ops != [] {
      var k := |ops| - 1;
      assert Issues(ops)[..k] == Issues(ops[..k]);
      SavedShrinks(g, ops[..k]);
    }
  }

  /** A prune that was not stopped forgets exactly the snapshots its policy drops. */
  lemma CompletedPrune(w: World, policy: Policy, tx: string, universe: iset<Bytes>)
    requires Good(w, universe) && PruneStarts(Live(w), policy, tx) && Guarded(w.base, w.acts, policy)
    ensures var event := PruneEvent(policy, tx, |PruneLog(Live(w).disk, policy, tx)|);
      Live(Step(w, event)).saved == Live(w).saved - Elements(Drops(Live(w).disk, policy))
  {
    hide PruneLog, Drops, Effects, Good, PruneStarts, Guarded, ApplyAll, Tracked, Intact, UpTo, InOrder;
    var d, log := Live(w).disk, PruneLog(Live(w).disk, policy, tx);
    var event := PruneEvent(policy, tx, |log|);
    GoodInOrder(w, universe);
    GuardedIsUnexposed(w.base, w.acts, policy, tx, |log|);
    PruneKeeps(w, event, universe);
    NowIntact(w, universe);
    NowIntact(Step(w, event), universe);
    Reached(w.base, w.acts, policy, tx, |log|);
    assert log[..|log|] == log && Issues(log)[..|log|] == Issues(log);
    SavedShrinks(Live(w), log);
    EndsWithout(d, policy, tx);
    SavedIsListed(Live(w));
    SavedIsListed(Live(Step(w, event)));
  }

  lemma SavedIsListed(g: State)
    requires Intact(g)
    ensures g.saved.Keys == g.disk.snapshots.Keys
  {
  }

  lemma EndsWithout(d: Disk, policy: Policy, tx: string)
    ensures ApplyAll(d, PruneLog(d, policy, tx)).snapshots.Keys == d.snapshots.Keys - Elements(Drops(d, policy))
  {
    hide PruneLog, Drops, ApplyAll, Image, Retired;
    var log := PruneLog(d, policy, tx);
    var s := All(|log|);
    assert log[..|log|] == log;
    ImageAll(d, log, s);
    ImageSnapshots(d, log, s);
    forall n ensures Retired(log, s, n) <==> n in Drops(d, policy) {
      if Retired(log, s, n) { RetiredDropped(d, policy, tx, |log|, s, n); }
      if n in Drops(d, policy) { DropIssued(d, policy, tx, n); }
    }
  }

  lemma DropIssued(d: Disk, policy: Policy, tx: string, n: string)
    requires n in Drops(d, policy)
    ensures Retired(PruneLog(d, policy, tx), All(|PruneLog(d, policy, tx)|), n)
  {
    hide PruneLog, MoveOps, Drops;
    var i := RetireAt(Drops(d, policy), tx, n);
    PruneSteps.LogPhases(d, policy, tx);
    assert PruneLog(d, policy, tx)[i] == Retire(n, tx);
    assert i in All(|PruneLog(d, policy, tx)|);
  }
}
