/** A machine between two restarts: what captures and prunes have issued since the last one,
    whichever of it reached the disk, and what a power loss at any moment can leave. */
module Power {
  import opened Content
  import opened SourceTree
  import opened Repository
  import opened RetentionPlan
  import opened Journal
  import opened PruneCrash
  import opened PruneImages

  /** A published snapshot: its directory, and the tree that was captured into it. */
  datatype Generation = Generation(node: SnapshotNode, walk: seq<Item>)

  /** One change: an operation of a prune or a sync, a new bucket directory, an object linked
      into its bucket, or a finished snapshot directory renamed into place. */
  datatype Act =
    | Issue(op: Op) | MakeBucket(bucket: string) | Link(hash: string, data: Bytes)
    | Publish(name: string, generation: Generation)

  /** A repository, its bucket directories, under which transaction each snapshot directory was
      renamed, and what each listed snapshot stands for. */
  datatype State = State(
    disk: Disk, buckets: set<string>, renamed: set<(string, string)>, saved: map<string, Generation>)

  /** The directories whose entries an act changes. */
  function Places(a: Act): set<Dir> {
    match a
    case Issue(op) => Touches(op)
    case MakeBucket(_) => {ObjectRoot}
    case Link(hash, _) => {Bucket(BucketName(hash))}
    case Publish(_, _) => {SnapshotRoot}
  }

  function DropListedFile(d: Disk, name: string, file: string): Disk {
    if name in d.snapshots && d.snapshots[name].SnapshotDir?
    then d.(snapshots := d.snapshots[name := SnapshotDir(d.snapshots[name].files - {file})])
    else d
  }

  /** What an act does. A snapshot directory that was renamed and one that was not are the same
      directory: where the rename did not happen, removing its files damages the listed
      snapshot. What is linked into a bucket that is not there cannot be reached. */
  function Effect(g: State, a: Act): State {
    match a
    case Issue(DropFile(tx, name, file)) =>
      g.(disk := if (name, tx) in g.renamed then Apply(g.disk, a.op) else DropListedFile(g.disk, name, file))
    case Issue(Retire(name, tx)) =>
      g.(disk := Apply(g.disk, a.op), renamed := g.renamed + {(name, tx)}, saved := g.saved - {name})
    case Issue(op) => g.(disk := Apply(g.disk, op))
    case MakeBucket(bucket) => g.(buckets := g.buckets + {bucket})
    case Link(hash, data) =>
      if hash in g.disk.objects || BucketName(hash) !in g.buckets then g
      else g.(disk := g.disk.(objects := g.disk.objects[hash := ObjectFile(data)]))
    case Publish(name, generation) =>
      g.(disk := g.disk.(snapshots := g.disk.snapshots[name := generation.node]), saved := g.saved[name := generation])
  }

  function Effects(g: State, acts: seq<Act>): State {
    if acts == [] then g else Effect(Effects(g, acts[..|acts| - 1]), acts[|acts| - 1])
  }

  /** What a restart finds when the acts in `s` reached the disk and the others did not. */
  function Left(g: State, acts: seq<Act>, s: set<nat>): State {
    if acts == [] then g
    else
      var k := |acts| - 1;
      if k in s then Effect(Left(g, acts[..k], s), acts[k]) else Left(g, acts[..k], s)
  }

  predicate SyncOf(a: Act, dir: Dir) {
    a == Issue(Sync(dir))
  }

  /** The cuts that a power loss can make: within a directory changes reach the disk in the order
      they were issued, a rename counts for both its directories, and a completed sync covers
      what came before it in its directory. */
  ghost predicate Cut(acts: seq<Act>, s: set<nat>) {
    && (forall i :: i in s ==> i < |acts|)
    && (forall i, j :: 0 <= i < j < |acts| && j in s && !(Places(acts[i]) !! Places(acts[j])) ==> i in s)
    && (forall i, j, dir :: 0 <= i < j < |acts| && dir in Places(acts[i]) && SyncOf(acts[j], dir) ==> i in s)
  }

  // ----- undamaged states -----

  /** Every listed snapshot is as it was published, and every object its index mentions is
      stored, with the recorded size and digest. */
  ghost predicate Intact(g: State) {
    && g.saved.Keys == g.disk.snapshots.Keys
    && (forall n :: n in g.disk.snapshots ==> g.disk.snapshots[n] == g.saved[n].node && SnapshotRecoverable(g.disk, n))
    && (forall h :: h in g.disk.objects ==> ObjectOk(g.disk, h, true) && BucketName(h) in g.buckets)
  }

  predicate RowStored(d: Disk, row: Row) {
    RowOk(d, row) && ObjectOk(d, row.hash, true)
  }

  /** The act does no damage here. */
  ghost predicate Harmless(g: State, a: Act) {
    match a
    case Issue(Unlink(h)) => forall n :: n in g.disk.snapshots ==> h !in HashesOf(RowsOf(g.disk, n))
    case Issue(DropFile(tx, name, file)) =>
      (name, tx) in g.renamed || name !in g.disk.snapshots || !g.disk.snapshots[name].SnapshotDir?
        || file !in g.disk.snapshots[name].files
    case Link(h, data) => h in g.disk.objects || BucketName(h) !in g.buckets || ObjectName(data) == h
    case Publish(_, generation) =>
      forall i :: 0 <= i < |IndexOf(generation.node).rows| ==> RowStored(g.disk, IndexOf(generation.node).rows[i])
    case _ => true
  }

  lemma SameSnapshots(g: State, e: State)
    requires Intact(g) && e.saved == g.saved && e.disk.snapshots == g.disk.snapshots
    requires e.disk.objects == g.disk.objects && e.buckets >= g.buckets
    ensures Intact(e)
  {
    hide IndexOf;
    forall n | n in e.disk.snapshots ensures SnapshotRecoverable(e.disk, n) {
      assert SnapshotRecoverable(g.disk, n);
      forall i | 0 <= i < |RowsOf(e.disk, n)| ensures RowStored(e.disk, RowsOf(e.disk, n)[i]) {
        assert RowStored(g.disk, RowsOf(g.disk, n)[i]);
      }
    }
    forall h | h in e.disk.objects ensures ObjectOk(e.disk, h, true) {
      assert ObjectOk(g.disk, h, true);
    }
  }

  lemma UnlinkIntact(g: State, h: string)
    requires Intact(g)
    ensures Intact(Effect(g, Issue(Unlink(h)))) <==> Harmless(g, Issue(Unlink(h)))
  {
    hide IndexOf;
    var e := Effect(g, Issue(Unlink(h)));
    if Harmless(g, Issue(Unlink(h))) {
      forall n | n in e.disk.snapshots ensures SnapshotRecoverable(e.disk, n) {
        assert SnapshotRecoverable(g.disk, n);
        forall i | 0 <= i < |RowsOf(e.disk, n)| ensures RowStored(e.disk, RowsOf(e.disk, n)[i]) {
          var row := RowsOf(g.disk, n)[i];
          assert RowStored(g.disk, row);
          assert row.hash in HashesOf(RowsOf(g.disk, n));
        }
      }
      forall x | x in e.disk.objects ensures ObjectOk(e.disk, x, true) {
        assert ObjectOk(g.disk, x, true);
      }
    } else {
      var n :| n in g.disk.snapshots && h in HashesOf(RowsOf(g.disk, n));
      var i :| 0 <= i < |RowsOf(g.disk, n)| && RowsOf(g.disk, n)[i].hash == h;
      assert !RowOk(e.disk, RowsOf(e.disk, n)[i]);
      assert !SnapshotRecoverable(e.disk, n);
    }
  }

  lemma DropFileIntact(g: State, tx: string, name: string, file: string)
    requires Intact(g)
    ensures Intact(Effect(g, Issue(DropFile(tx, name, file)))) <==> Harmless(g, Issue(DropFile(tx, name, file)))
  {
    hide SnapshotRecoverable;
    var e := Effect(g, Issue(DropFile(tx, name, file)));
    if Harmless(g, Issue(DropFile(tx, name, file))) {
      if (name, tx) !in g.renamed && name in g.disk.snapshots && g.disk.snapshots[name].SnapshotDir? {
        assert g.disk.snapshots[name].files - {file} == g.disk.snapshots[name].files;
        assert e.disk.snapshots == g.disk.snapshots;
      }
      SameSnapshots(g, e);
    } else {
      assert e.disk.snapshots[name] != g.disk.snapshots[name];
    }
  }

  lemma LinkIntact(g: State, h: string, data: Bytes)
    requires Intact(g)
    ensures Intact(Effect(g, Link(h, data))) <==> Harmless(g, Link(h, data))
  {
    hide IndexOf;
    var e := Effect(g, Link(h, data));
    if h !in g.disk.objects && BucketName(h) in g.buckets {
      if ObjectName(data) == h {
        forall n | n in e.disk.snapshots ensures SnapshotRecoverable(e.disk, n) {
          assert SnapshotRecoverable(g.disk, n);
          forall i | 0 <= i < |RowsOf(e.disk, n)| ensures RowStored(e.disk, RowsOf(e.disk, n)[i]) {
            assert RowStored(g.disk, RowsOf(g.disk, n)[i]);
          }
        }
        forall x | x in e.disk.objects ensures ObjectOk(e.disk, x, true) {
          if x != h { assert ObjectOk(g.disk, x, true); }
        }
      } else {
        assert !ObjectOk(e.disk, h, true);
      }
    }
  }

  lemma PublishIntact(g: State, name: string, generation: Generation)
    requires Intact(g)
    ensures Intact(Effect(g, Publish(name, generation))) <==> Harmless(g, Publish(name, generation))
  {
    hide IndexOf;
    var e := Effect(g, Publish(name, generation));
    var rows := IndexOf(generation.node).rows;
    assert RowsOf(e.disk, name) == rows;
    forall row ensures RowStored(e.disk, row) == RowStored(g.disk, row) {}
    if Harmless(g, Publish(name, generation)) {
      forall n | n in e.disk.snapshots ensures SnapshotRecoverable(e.disk, n) {
        if n != name {
          assert SnapshotRecoverable(g.disk, n);
          forall i | 0 <= i < |RowsOf(e.disk, n)| ensures RowStored(e.disk, RowsOf(e.disk, n)[i]) {
            assert RowStored(g.disk, RowsOf(g.disk, n)[i]);
          }
        }
      }
      forall x | x in e.disk.objects ensures ObjectOk(e.disk, x, true) {
        assert ObjectOk(g.disk, x, true);
      }
    } else {
      var i :| 0 <= i < |rows| && !RowStored(g.disk, rows[i]);
      assert !SnapshotRecoverable(e.disk, name);
    }
  }

  lemma RetireIntact(g: State, name: string, tx: string)
    requires Intact(g)
    ensures Intact(Effect(g, Issue(Retire(name, tx))))
  {
    hide IndexOf;
    var e := Effect(g, Issue(Retire(name, tx)));
    forall n | n in e.disk.snapshots ensures SnapshotRecoverable(e.disk, n) {
      assert SnapshotRecoverable(g.disk, n);
      forall i | 0 <= i < |RowsOf(e.disk, n)| ensures RowStored(e.disk, RowsOf(e.disk, n)[i]) {
        assert RowStored(g.disk, RowsOf(g.disk, n)[i]);
      }
    }
    forall x | x in e.disk.objects ensures ObjectOk(e.disk, x, true) {
      assert ObjectOk(g.disk, x, true);
    }
  }

  /** An act leaves an undamaged state undamaged exactly if it is harmless. */
  lemma ActIntact(g: State, a: Act)
    requires Intact(g)
    ensures Intact(Effect(g, a)) <==> Harmless(g, a)
  {
    hide Intact, Harmless, Effect;
    match a
    case Issue(Unlink(h)) => UnlinkIntact(g, h);
    case Issue(DropFile(tx, name, file)) => DropFileIntact(g, tx, name, file);
    case Issue(Retire(name, tx)) => RetireIntact(g, name, tx); NoHarm(g, a);
    case Link(h, data) => LinkIntact(g, h, data);
    case Publish(name, generation) => PublishIntact(g, name, generation);
    case _ => OtherEffect(g, a); SameSnapshots(g, Effect(g, a)); NoHarm(g, a);
  }

  predicate Other(a: Act) {
    !a.Link? && !a.Publish? && !(a.Issue? && (a.op.Unlink? || a.op.DropFile? || a.op.Retire?))
  }

  lemma OtherEffect(g: State, a: Act)
    requires Other(a)
    ensures var e := Effect(g, a);
      && e.saved == g.saved && e.disk.snapshots == g.disk.snapshots && e.disk.objects == g.disk.objects
      && e.buckets >= g.buckets && e.renamed == g.renamed
  {
  }

  lemma NoHarm(g: State, a: Act)
    requires Other(a) || (a.Issue? && a.op.Retire?)
    ensures Harmless(g, a)
  {
  }

  // ----- every cut at every moment -----

  /** A power loss now leaves no damage, whatever it cuts off. */
  ghost predicate AllIntact(g: State, acts: seq<Act>) {
    forall s :: Cut(acts, s) ==> Intact(Left(g, acts, s))
  }

  /** The act does no damage to anything that a power loss just after it could leave. */
  ghost predicate AllHarmless(g: State, acts: seq<Act>, a: Act) {
    forall s :: Cut(acts + [a], s) && |acts| in s ==> Harmless(Left(g, acts, s), a)
  }

  function Before(s: set<nat>, n: nat): set<nat> {
    set i | i in s && i < n
  }

  lemma CutBefore(acts: seq<Act>, a: Act, s: set<nat>)
    requires Cut(acts + [a], s)
    ensures Cut(acts, Before(s, |acts|))
  {
    var all := acts + [a];
    forall i, j | 0 <= i < j < |acts| && j in s && !(Places(acts[i]) !! Places(acts[j])) ensures i in s {
      assert all[i] == acts[i] && all[j] == acts[j];
    }
    forall i, j, dir | 0 <= i < j < |acts| && dir in Places(acts[i]) && SyncOf(acts[j], dir) ensures i in s {
      assert all[i] == acts[i] && all[j] == acts[j];
    }
  }

  /** Only the acts count, not what else is in the cut. */
  lemma {:induction false} LeftSame(g: State, acts: seq<Act>, s: set<nat>, t: set<nat>)
    requires forall i: nat :: i < |acts| ==> (i in s <==> i in t)
    ensures Left(g, acts, s) == Left(g, acts, t)
  {
    hide Effect;
    if acts != [] { LeftSame(g, acts[..|acts| - 1], s, t); }
  }

  lemma LeftOne(g: State, acts: seq<Act>, a: Act, s: set<nat>)
    ensures Left(g, acts + [a], s) == if |acts| in s then Effect(Left(g, acts, s), a) else Left(g, acts, s)
  {
    assert (acts + [a])[..|acts|] == acts;
  }

  /** One act more: no cut shows damage exactly if the act harms none of them. */
  lemma OneMoreIntact(g: State, acts: seq<Act>, a: Act)
    requires AllIntact(g, acts)
    ensures AllIntact(g, acts + [a]) <==> AllHarmless(g, acts, a)
  {
    hide Intact, Harmless, Effect, Cut, Left;
    forall s | Cut(acts + [a], s)
      ensures Intact(Left(g, acts + [a], s)) <==> (|acts| in s ==> Harmless(Left(g, acts, s), a))
    {
      CutBefore(acts, a, s);
      LeftSame(g, acts, s, Before(s, |acts|));
      LeftOne(g, acts, a, s);
      ActIntact(Left(g, acts, s), a);
    }
  }

  /** At no moment since the restart could a power loss have left damage. */
  ghost predicate IntactAlong(g: State, acts: seq<Act>) {
    forall m: nat :: m <= |acts| ==> AllIntact(g, acts[..m])
  }

  /** A power loss at any moment while `more` is issued leaves no damage. */
  ghost predicate Safe(g: State, acts: seq<Act>, more: seq<Act>) {
    forall m: nat :: m <= |more| ==> AllIntact(g, acts + more[..m])
  }

  lemma {:induction false} SafeSteps(g: State, acts: seq<Act>, more: seq<Act>, k: nat)
    requires AllIntact(g, acts) && k <= |more|
    requires forall m: nat :: m < k ==> AllHarmless(g, acts + more[..m], more[m])
    ensures AllIntact(g, acts + more[..k])
  {
    hide AllIntact, AllHarmless;
    if k == 0 {
      assert acts + more[..0] == acts;
    } else {
      SafeSteps(g, acts, more, k - 1);
      OneMoreIntact(g, acts + more[..k - 1], more[k - 1]);
      assert acts + more[..k - 1] + [more[k - 1]] == acts + more[..k];
    }
  }

  lemma SafeExactly(g: State, acts: seq<Act>, more: seq<Act>)
    requires AllIntact(g, acts)
    ensures Safe(g, acts, more) <==> forall m: nat :: m < |more| ==> AllHarmless(g, acts + more[..m], more[m])
  {
    hide AllIntact, AllHarmless;
    if forall m: nat :: m < |more| ==> AllHarmless(g, acts + more[..m], more[m]) {
      forall m: nat | m <= |more| ensures AllIntact(g, acts + more[..m]) { SafeSteps(g, acts, more, m); }
    }
    if Safe(g, acts, more) {
      forall m: nat | m < |more| ensures AllHarmless(g, acts + more[..m], more[m]) {
        assert AllIntact(g, acts + more[..m]) && AllIntact(g, acts + more[..m + 1]);
        OneMoreIntact(g, acts + more[..m], more[m]);
        assert acts + more[..m] + [more[m]] == acts + more[..m + 1];
      }
    }
  }

  lemma SafePrefix(g: State, acts: seq<Act>, more: seq<Act>, n: nat)
    requires Safe(g, acts, more) && n <= |more|
    ensures Safe(g, acts, more[..n])
  {
    hide AllIntact;
    forall m: nat | m <= n ensures AllIntact(g, acts + more[..n][..m]) { assert more[..n][..m] == more[..m]; }
  }

  // ----- the machine while it runs -----

  /** What holds whenever a program issues an act, in the state that it sees. */
  ghost predicate ActInOrder(g: State, a: Act) {
    match a
    case Publish(n, _) => n !in g.disk.snapshots
    case Link(h, _) => h !in g.disk.objects && BucketName(h) in g.buckets
    case Issue(DropFile(t, c, _)) => (c, t) in g.renamed
    case Issue(Retire(n, t)) =>
      && n in g.disk.snapshots && HasTx(g.disk, t) && (n, t) !in g.renamed
      && g.disk.snapshots[n].SnapshotDir? && "objects.index" in g.disk.snapshots[n].files
    case Issue(DropChild(t, c)) => c in ChildrenOf(g.disk, t) ==> NoFiles(ChildrenOf(g.disk, t)[c])
    case Issue(DropTx(t)) => ChildrenOf(g.disk, t) == map[]
    case Issue(Sync(dir)) => dir != ObjectRoot
    case _ => true
  }

  predicate NoFiles(node: SnapshotNode) {
    node.SnapshotDir? ==> node.files == map[]
  }

  ghost predicate InOrder(g: State, acts: seq<Act>) {
    forall i :: 0 <= i < |acts| ==> ActInOrder(Effects(g, acts[..i]), acts[i])
  }

  lemma InOrderOne(g: State, acts: seq<Act>, a: Act)
    ensures InOrder(g, acts + [a]) <==> InOrder(g, acts) && ActInOrder(Effects(g, acts), a)
  {
    hide ActInOrder, Effects;
    var all := acts + [a];
    assert all[..|acts|] == acts && all[|acts|] == a;
    assert forall i :: 0 <= i < |acts| ==> all[..i] == acts[..i] && all[i] == acts[i];
  }

  lemma InOrderPrefix(g: State, acts: seq<Act>, k: nat)
    requires InOrder(g, acts) && k <= |acts|
    ensures InOrder(g, acts[..k])
  {
    hide ActInOrder, Effects;
    assert forall i :: 0 <= i < k ==> acts[..k][..i] == acts[..i] && acts[..k][i] == acts[i];
  }

  lemma EffectsOne(g: State, acts: seq<Act>, a: Act)
    ensures Effects(g, acts + [a]) == Effect(Effects(g, acts), a)
  {
    assert (acts + [a])[..|acts|] == acts;
  }

  lemma {:induction false} EffectsConcat(g: State, a: seq<Act>, b: seq<Act>)
    ensures Effects(g, a + b) == Effects(Effects(g, a), b)
  {
    hide Effect;
    if b == [] {
      assert a + b == a;
    } else {
      var k := |b| - 1;
      EffectsConcat(g, a, b[..k]);
      assert (a + b)[..|a + b| - 1] == a + b[..k];
    }
  }

  lemma {:induction false} InOrderConcat(g: State, a: seq<Act>, b: seq<Act>)
    requires InOrder(g, a) && InOrder(Effects(g, a), b)
    ensures InOrder(g, a + b)
  {
    hide ActInOrder, Effects;
    if b == [] {
      assert a + b == a;
    } else {
      var k := |b| - 1;
      InOrderPrefix(Effects(g, a), b, k);
      InOrderConcat(g, a, b[..k]);
      EffectsConcat(g, a, b[..k]);
      InOrderOne(g, a + b[..k], b[k]);
      assert a + b[..k] + [b[k]] == a + b;
    }
  }

  /** When nothing is lost. */
  lemma {:induction false} LeftAll(g: State, acts: seq<Act>, s: set<nat>)
    requires forall i: nat :: i < |acts| ==> i in s
    ensures Left(g, acts, s) == Effects(g, acts)
  {
    hide Effect;
    if acts != [] { LeftAll(g, acts[..|acts| - 1], s); }
  }

  lemma AllIsCut(acts: seq<Act>)
    ensures Cut(acts, All(|acts|))
  {
  }

  lemma LiveIntact(g: State, acts: seq<Act>)
    requires AllIntact(g, acts)
    ensures Intact(Effects(g, acts))
  {
    hide Intact, Cut;
    AllIsCut(acts);
    LeftAll(g, acts, All(|acts|));
  }

  // ----- where a retired snapshot came from -----

  /** Whatever lies under a transaction was renamed there. */
  ghost predicate Tracked(g: State) {
    forall t, c :: c in ChildrenOf(g.disk, t) ==> (c, t) in g.renamed
  }

  lemma TrackedStep(g: State, a: Act)
    requires Tracked(g)
    ensures Tracked(Effect(g, a)) && g.renamed <= Effect(g, a).renamed && g.buckets <= Effect(g, a).buckets
  {
    hide Apply, ChildrenOf;
    var e := Effect(g, a);
    forall t, c | c in ChildrenOf(e.disk, t) ensures (c, t) in e.renamed {
      if a.Issue? { ChildrenStep(g.disk, a.op, t, c); }
      SameRetiredChildren(g, a, t);
    }
  }

  lemma SameRetiredChildren(g: State, a: Act, t: string)
    ensures !a.Issue? ==> ChildrenOf(Effect(g, a).disk, t) == ChildrenOf(g.disk, t)
    ensures a.Issue? && Effect(g, a).disk != Apply(g.disk, a.op) ==>
      ChildrenOf(Effect(g, a).disk, t) == ChildrenOf(g.disk, t)
  {
    hide Apply;
  }

  lemma {:induction false} LeftTracked(g: State, acts: seq<Act>, s: set<nat>)
    requires Tracked(g)
    ensures var e := Left(g, acts, s); Tracked(e) && g.renamed <= e.renamed && g.buckets <= e.buckets
  {
    hide Effect, Tracked;
    if acts != [] {
      var k := |acts| - 1;
      LeftTracked(g, acts[..k], s);
      if k in s { TrackedStep(Left(g, acts[..k], s), acts[k]); }
    }
  }

  lemma LiveTracked(g: State, acts: seq<Act>)
    requires Tracked(g)
    ensures var e := Effects(g, acts); Tracked(e) && g.renamed <= e.renamed && g.buckets <= e.buckets
  {
    hide Tracked;
    LeftTracked(g, acts, All(|acts|));
    LeftAll(g, acts, All(|acts|));
  }

  // ----- what a cut can change -----

  predicate IsRename(a: Act) {
    a.Issue? && a.op.Retire?
  }

  /** No rename is lost. */
  ghost predicate KeepsRenames(acts: seq<Act>, s: set<nat>) {
    forall i :: 0 <= i < |acts| && IsRename(acts[i]) ==> i in s
  }

  /** Where no rename is lost, a listed snapshot is one that the machine lists. */
  ghost predicate Lags(e: State, g: State) {
    && e.renamed == g.renamed
    && forall n :: n in e.disk.snapshots ==> n in g.disk.snapshots && g.disk.snapshots[n] == e.disk.snapshots[n]
  }

  lemma LagStep(e: State, g: State, a: Act, kept: bool)
    requires Lags(e, g) && ActInOrder(g, a) && (IsRename(a) ==> kept)
    ensures Lags(if kept then Effect(e, a) else e, Effect(g, a))
  {
  }

  lemma {:induction false} ListedIsLive(g: State, acts: seq<Act>, s: set<nat>)
    requires InOrder(g, acts) && KeepsRenames(acts, s)
    ensures Lags(Left(g, acts, s), Effects(g, acts))
  {
    hide ActInOrder, Lags, Effect;
    if acts == [] {
      LagsSelf(g);
    } else {
      var k := |acts| - 1;
      InOrderPrefix(g, acts, k);
      ListedIsLive(g, acts[..k], s);
      LagStep(Left(g, acts[..k], s), Effects(g, acts[..k]), acts[k], k in s);
    }
  }

  lemma LagsSelf(g: State)
    ensures Lags(g, g)
  {
  }

  predicate OnObject(a: Act, h: string) {
    a == Issue(Unlink(h)) || (a.Link? && a.hash == h)
  }

  ghost predicate SameObject(e: State, g: State, h: string) {
    && BucketName(h) in e.buckets && BucketName(h) in g.buckets
    && (h in e.disk.objects <==> h in g.disk.objects)
    && (h in e.disk.objects ==> e.disk.objects[h] == g.disk.objects[h])
  }

  lemma ObjectEffect(g: State, a: Act, h: string)
    requires BucketName(h) in g.buckets
    ensures var e := Effect(g, a);
      && BucketName(h) in e.buckets
      && (a == Issue(Unlink(h)) ==> h !in e.disk.objects)
      && (a.Link? && a.hash == h && h !in g.disk.objects ==>
            h in e.disk.objects && e.disk.objects[h] == ObjectFile(a.data))
      && (!OnObject(a, h) || (a.Link? && h in g.disk.objects) ==> SameObject(e, g, h))
  {
    hide BucketName;
    if a.Issue? { OtherObject(g.disk, a.op, h); }
  }

  lemma OtherObject(d: Disk, op: Op, h: string)
    ensures op != Unlink(h) ==> (h in Apply(d, op).objects <==> h in d.objects)
    ensures op != Unlink(h) && h in d.objects ==> Apply(d, op).objects[h] == d.objects[h]
  {
    hide HasTx;
  }

  lemma ObjectStep(e: State, g: State, a: Act, h: string, kept: bool)
    requires SameObject(e, g, h) && (OnObject(a, h) ==> kept)
    ensures SameObject(if kept then Effect(e, a) else e, Effect(g, a), h)
  {
    hide BucketName, Effect;
    ObjectEffect(e, a, h);
    ObjectEffect(g, a, h);
  }

  /** An object whose bucket was there at the last restart is after a power loss as it was
      before, if no act on it is lost. */
  lemma {:induction false} ObjectIsLive(g: State, acts: seq<Act>, s: set<nat>, h: string)
    requires BucketName(h) in g.buckets
    requires forall i :: 0 <= i < |acts| && OnObject(acts[i], h) ==> i in s
    ensures SameObject(Left(g, acts, s), Effects(g, acts), h)
  {
    hide Effect, BucketName;
    if acts != [] {
      var k := |acts| - 1;
      assert forall i :: 0 <= i < k ==> acts[..k][i] == acts[i];
      ObjectIsLive(g, acts[..k], s, h);
      ObjectStep(Left(g, acts[..k], s), Effects(g, acts[..k]), acts[k], h, k in s);
    }
  }

  /** The list of snapshots, with what it stands for, and the renames. */
  ghost predicate SameList(e: State, g: State) {
    e.saved == g.saved && e.disk.snapshots.Keys == g.disk.snapshots.Keys && e.renamed == g.renamed
  }

  /** How an act changes the list. */
  lemma ListEffect(g: State, a: Act)
    ensures var e := Effect(g, a);
      if IsRename(a) then
        && e.saved == g.saved - {a.op.name} && e.disk.snapshots.Keys == g.disk.snapshots.Keys - {a.op.name}
        && e.renamed == g.renamed + {(a.op.name, a.op.tx)}
      else if a.Publish? then
        && e.saved == g.saved[a.name := a.generation]
        && e.disk.snapshots.Keys == g.disk.snapshots.Keys + {a.name} && e.renamed == g.renamed
      else SnapshotRoot !in Places(a) && SameList(e, g)
  {
    if IsRename(a) {
      RenameEffect(g.disk, a.op);
    }
  }

  lemma RenameEffect(d: Disk, op: Op)
    requires op.Retire?
    ensures Apply(d, op).snapshots.Keys == d.snapshots.Keys - {op.name}
  {
  }

  lemma ListStep(e: State, g: State, a: Act)
    requires SameList(e, g)
    ensures SameList(Effect(e, a), Effect(g, a))
    ensures SnapshotRoot !in Places(a) ==> SameList(e, Effect(g, a))
  {
    hide Effect;
    ListEffect(e, a);
    ListEffect(g, a);
  }

  lemma {:induction false} ListIsLive(g: State, acts: seq<Act>, s: set<nat>)
    requires forall j :: 0 <= j < |acts| && SnapshotRoot in Places(acts[j]) ==> j in s
    ensures SameList(Left(g, acts, s), Effects(g, acts))
  {
    hide Effect, SameList;
    if acts == [] {
      SameListSelf(g);
    } else {
      var k := |acts| - 1;
      assert forall j :: 0 <= j < k ==> acts[..k][j] == acts[j];
      ListIsLive(g, acts[..k], s);
      ListStep(Left(g, acts[..k], s), Effects(g, acts[..k]), acts[k]);
    }
  }

  lemma SameListSelf(g: State)
    ensures SameList(g, g)
  {
  }

  /** A cut that loses every change of the snapshot list from one moment on, and none before,
      shows the list of that moment. */
  lemma {:induction false} ListFrozen(g: State, acts: seq<Act>, i: nat, s: set<nat>)
    requires i <= |acts| && forall j :: 0 <= j < i && SnapshotRoot in Places(acts[j]) ==> j in s
    requires forall j :: i <= j < |acts| && j in s ==> SnapshotRoot !in Places(acts[j])
    ensures SameList(Left(g, acts, s), Effects(g, acts[..i]))
  {
    hide Effect, SameList;
    if i == |acts| {
      assert acts[..i] == acts;
      ListIsLive(g, acts, s);
    } else {
      var k := |acts| - 1;
      assert acts[..k][..i] == acts[..i];
      assert forall j :: 0 <= j < k ==> acts[..k][j] == acts[j];
      ListFrozen(g, acts[..k], i, s);
      if k in s { FrozenStep(Left(g, acts[..k], s), acts[k], Effects(g, acts[..i])); }
    }
  }

  lemma FrozenStep(e: State, a: Act, g: State)
    requires SnapshotRoot !in Places(a) && SameList(e, g)
    ensures SameList(Effect(e, a), g)
  {
    hide Effect;
    ListEffect(e, a);
  }
}
