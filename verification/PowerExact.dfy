/** Which operations of a prune can do damage, whatever was issued before it and wherever it is
    stopped. */
module PowerExact {
  import opened Repository
  import opened RetentionPlan
  import opened Journal
  import opened PruneSpec
  import opened PruneSteps
  import opened PruneCrash
  import opened PruneImages
  import opened Power
  import opened PowerPrune

  // ----- renames that some power loss would undo -----

  /** Since the rename at `j` no sync has covered it, or a later rename. */
  ghost predicate Undoable(acts: seq<Act>, j: nat) {
    && j < |acts| && IsRename(acts[j])
    && forall k, l :: j <= k < l < |acts| && IsRename(acts[k]) ==>
         !SyncOf(acts[l], SnapshotRoot) && !SyncOf(acts[l], TxDir(acts[k].op.tx))
  }

  /** The act is lost whenever the rename at `j` is. */
  ghost predicate GoesWith(acts: seq<Act>, j: nat, p: nat) {
    && j <= p < |acts|
    && (SnapshotRoot in Places(acts[p])
        || exists k :: j <= k <= p && IsRename(acts[k]) && TxDir(acts[k].op.tx) in Places(acts[p]))
  }

  lemma {:induction false} Others(acts: seq<Act>, j: nat, n: nat) returns (s: set<nat>)
    requires n <= |acts|
    ensures forall p: nat :: p in s <==> p < n && !GoesWith(acts, j, p)
  {
    if n == 0 {
      s := {};
    } else {
      s := Others(acts, j, n - 1);
      if !GoesWith(acts, j, n - 1) { s := s + {n - 1}; }
    }
  }

  lemma OthersAreCut(acts: seq<Act>, j: nat, s: set<nat>)
    requires Undoable(acts, j) && forall p: nat :: p in s <==> p < |acts| && !GoesWith(acts, j, p)
    ensures Cut(acts, s)
  {
    forall x, y | 0 <= x < y < |acts| && y in s && !(Places(acts[x]) !! Places(acts[y])) ensures x in s {
      if GoesWith(acts, j, x) { FollowerGoes(acts, j, x, y); }
    }
    forall x, y, dir | 0 <= x < y < |acts| && dir in Places(acts[x]) && SyncOf(acts[y], dir) ensures x in s {
      if GoesWith(acts, j, x) { NotSynced(acts, j, x, y, dir); }
    }
  }

  lemma FollowerGoes(acts: seq<Act>, j: nat, x: nat, y: nat)
    requires GoesWith(acts, j, x) && x < y < |acts| && !(Places(acts[x]) !! Places(acts[y]))
    ensures GoesWith(acts, j, y)
  {
    if IsRename(acts[x]) {
      assert Places(acts[x]) == {SnapshotRoot, TxDir(acts[x].op.tx)};
    } else if SnapshotRoot in Places(acts[x]) {
      assert Places(acts[x]) == {SnapshotRoot};
    } else {
      var k :| j <= k <= x && IsRename(acts[k]) && TxDir(acts[k].op.tx) in Places(acts[x]);
      assert Places(acts[x]) == {TxDir(acts[k].op.tx)};
    }
  }

  lemma NotSynced(acts: seq<Act>, j: nat, x: nat, y: nat, dir: Dir)
    requires Undoable(acts, j) && GoesWith(acts, j, x) && x < y < |acts| && dir in Places(acts[x])
    ensures !SyncOf(acts[y], dir)
  {
    if IsRename(acts[x]) {
      assert Places(acts[x]) == {SnapshotRoot, TxDir(acts[x].op.tx)};
    } else if SnapshotRoot in Places(acts[x]) {
      assert Places(acts[x]) == {SnapshotRoot};
      assert IsRename(acts[j]) && j < y;
    } else {
      var k :| j <= k <= x && IsRename(acts[k]) && TxDir(acts[k].op.tx) in Places(acts[x]);
      assert Places(acts[x]) == {TxDir(acts[k].op.tx)};
    }
  }

  /** A rename is lost by some cut exactly if it is undoable. */
  lemma LostIsUndoable(acts: seq<Act>, s: set<nat>, j: nat)
    requires Cut(acts, s) && j < |acts| && IsRename(acts[j]) && j !in s
    ensures Undoable(acts, j)
  {
    forall k | j <= k < |acts| && IsRename(acts[k])
      ensures k !in s && Places(acts[k]) == {SnapshotRoot, TxDir(acts[k].op.tx)}
    {
      assert j == k || !(Places(acts[j]) !! Places(acts[k]));
    }
  }

  predicate Removal(op: Op) {
    op.Unlink? || op.DropFile?
  }

  lemma StillUndoable(acts: seq<Act>, j: nat, op: Op)
    requires Undoable(acts, j) && Removal(op)
    ensures Undoable(acts + [Issue(op)], j)
  {
    var all := acts + [Issue(op)];
    forall k, l | j <= k < l < |all| && IsRename(all[k])
      ensures !SyncOf(all[l], SnapshotRoot) && !SyncOf(all[l], TxDir(all[k].op.tx))
    {
      if l < |acts| { assert all[k] == acts[k] && all[l] == acts[l]; }
    }
  }

  /** A cut that loses the rename, keeps the removal, and shows the list from before it. */
  lemma CutWithout(acts: seq<Act>, j: nat, op: Op) returns (s: set<nat>)
    requires Undoable(acts, j) && Removal(op)
    ensures Cut(acts + [Issue(op)], s) && |acts| in s
    ensures forall p: nat :: p < j ==> p in s
    ensures forall p :: j <= p < |acts| && p in s ==> SnapshotRoot !in Places(acts[p])
  {
    var all := acts + [Issue(op)];
    StillUndoable(acts, j, op);
    s := Others(all, j, |all|);
    OthersAreCut(all, j, s);
    assert Places(all[|acts|]) !! {SnapshotRoot};
    assert forall k :: 0 <= k < |all| && IsRename(all[k]) ==> TxDir(all[k].op.tx) !in Places(all[|acts|]);
    forall p | j <= p < |acts| && p in s ensures SnapshotRoot !in Places(acts[p]) {
      assert all[p] == acts[p] && !GoesWith(all, j, p);
    }
  }

  // ----- what an undoable rename exposes -----

  /** What a snapshot's rename at `j` took from the list. */
  function RenamedNode(g: State, acts: seq<Act>, j: nat): SnapshotNode
    requires j < |acts| && IsRename(acts[j])
  {
    var d := Effects(g, acts[..j]).disk;
    if acts[j].op.name in d.snapshots then d.snapshots[acts[j].op.name] else NotSnapshotDir
  }

  /** The operation removes a file or an object of a snapshot whose rename some power loss would
      still undo. */
  ghost predicate Exposes(g: State, acts: seq<Act>, op: Op) {
    match op
    case DropFile(t, c, _) => exists j: nat :: Undoable(acts, j) && acts[j] == Issue(Retire(c, t))
    case Unlink(h) => exists j: nat :: Undoable(acts, j) && h in HashesOf(IndexOf(RenamedNode(g, acts, j)).rows)
    case _ => false
  }

  lemma RowsOfNode(d: Disk, n: string)
    requires n in d.snapshots
    ensures RowsOf(d, n) == IndexOf(d.snapshots[n]).rows
  {
  }

  lemma RenameFacts(g: State, acts: seq<Act>, j: nat)
    requires InOrder(g, acts) && j < |acts| && IsRename(acts[j])
    ensures var n, t, l := acts[j].op.name, acts[j].op.tx, Effects(g, acts[..j]);
      n in l.disk.snapshots && (n, t) !in l.renamed && RenamedNode(g, acts, j) == l.disk.snapshots[n]
  {
    assert ActInOrder(Effects(g, acts[..j]), acts[j]);
  }

  lemma ListIs(e: State, g: State, n: string)
    requires SameList(e, g) && Intact(e) && Intact(g)
    ensures n in e.disk.snapshots <==> n in g.disk.snapshots
    ensures n in g.disk.snapshots ==> e.disk.snapshots[n] == g.disk.snapshots[n]
    ensures e.renamed == g.renamed
  {
    hide SnapshotRecoverable;
  }

  /** Such an operation does damage. */
  lemma ExposingHarms(g: State, acts: seq<Act>, op: Op, j: nat)
    requires InOrder(g, acts) && AllIntact(g, acts) && Undoable(acts, j) && Intact(Effects(g, acts[..j]))
    requires match op
      case DropFile(t, c, f) =>
        acts[j] == Issue(Retire(c, t)) && RenamedNode(g, acts, j).SnapshotDir? && f in RenamedNode(g, acts, j).files
      case Unlink(h) => h in HashesOf(IndexOf(RenamedNode(g, acts, j)).rows)
      case _ => false
    ensures !AllHarmless(g, acts, Issue(op))
  {
    hide Effects, Left, Intact, Effect, Cut, IndexOf, InOrder, SameList, Undoable, RenamedNode;
    var s := CutWithout(acts, j, op);
    CutBefore(acts, Issue(op), s);
    LeftSame(g, acts, s, Before(s, |acts|));
    RenameOf(acts, j);
    var e, l := Left(g, acts, s), Effects(g, acts[..j]);
    assert Intact(e);
    ListFrozen(g, acts, j, s);
    RenameFacts(g, acts, j);
    var n := acts[j].op.name;
    ListIs(e, l, n);
    RowsOfNode(e.disk, n);
    assert !Harmless(e, Issue(op));
  }

  lemma RenameOf(acts: seq<Act>, j: nat)
    requires Undoable(acts, j)
    ensures j < |acts| && IsRename(acts[j])
  {
  }

  // ----- any other operation does none -----

  /** A snapshot stays listed, as it is, until it is renamed. */
  lemma ListedStep(g: State, a: Act, n: string)
    requires n in g.disk.snapshots && ActInOrder(g, a) && !(IsRename(a) && a.op.name == n)
    ensures n in Effect(g, a).disk.snapshots && Effect(g, a).disk.snapshots[n] == g.disk.snapshots[n]
  {
  }

  /** If a snapshot of an earlier moment is no longer listed as it was, it was renamed since. */
  lemma {:induction false} RenamedSince(g: State, acts: seq<Act>, i: nat, n: string) returns (k: nat)
    requires InOrder(g, acts) && i <= |acts| && n in Effects(g, acts[..i]).disk.snapshots
    requires n !in Effects(g, acts).disk.snapshots
      || Effects(g, acts).disk.snapshots[n] != Effects(g, acts[..i]).disk.snapshots[n]
    ensures i <= k < |acts| && IsRename(acts[k]) && acts[k].op.name == n
    ensures n in Effects(g, acts[..k]).disk.snapshots
    ensures Effects(g, acts[..k]).disk.snapshots[n] == Effects(g, acts[..i]).disk.snapshots[n]
  {
    hide ActInOrder, Effect;
    assert acts[..|acts|] == acts;
    var m := |acts| - 1;
    assert i <= m && acts[..m][..i] == acts[..i];
    InOrderPrefix(g, acts, m);
    assert ActInOrder(Effects(g, acts[..m]), acts[m]);
    var l := Effects(g, acts[..m]).disk;
    if n in l.snapshots && l.snapshots[n] == Effects(g, acts[..i]).disk.snapshots[n] {
      k := m;
      if !(IsRename(acts[m]) && acts[m].op.name == n) {
        ListedStep(Effects(g, acts[..m]), acts[m], n);
        assert false;
      }
    } else {
      k := RenamedSince(g, acts[..m], i, n);
      assert acts[..m][..k] == acts[..k];
    }
  }

  lemma {:induction false} FirstLost(acts: seq<Act>, s: set<nat>, n: nat) returns (i: nat)
    requires n < |acts| && SnapshotRoot in Places(acts[n]) && n !in s
    ensures i <= n && SnapshotRoot in Places(acts[i]) && i !in s
    ensures forall p :: 0 <= p < i && SnapshotRoot in Places(acts[p]) ==> p in s
  {
    if p :| 0 <= p < n && SnapshotRoot in Places(acts[p]) && p !in s {
      i := FirstLost(acts, s, p);
    } else {
      i := n;
    }
  }

  lemma LostFromThere(acts: seq<Act>, s: set<nat>, i: nat)
    requires Cut(acts, s) && i < |acts| && SnapshotRoot in Places(acts[i]) && i !in s
    ensures forall p :: i <= p < |acts| && SnapshotRoot in Places(acts[p]) ==> p !in s
  {
    forall p | i <= p < |acts| && SnapshotRoot in Places(acts[p]) ensures p !in s {
      assert i == p || !(Places(acts[i]) !! Places(acts[p]));
    }
  }

  /** A snapshot that a cut lists and the programs do not, or not as it is, has an undoable rename. */
  lemma ListedIsUndoable(g: State, acts: seq<Act>, s: set<nat>, n: string) returns (k: nat)
    requires InOrder(g, acts) && Cut(acts, s) && IntactAlong(g, acts)
    requires n in Left(g, acts, s).disk.snapshots
    requires var l := Effects(g, acts).disk;
      n !in l.snapshots || l.snapshots[n] != Left(g, acts, s).disk.snapshots[n]
    ensures Undoable(acts, k) && IsRename(acts[k]) && acts[k].op.name == n
    ensures RenamedNode(g, acts, k) == Left(g, acts, s).disk.snapshots[n]
  {
    hide Effects, Left, Effect, InOrder, AllIntact, Intact, SameList, Undoable, Lags, Cut;
    assert acts[..|acts|] == acts;
    var i;
    if KeepsRenames(acts, s) {
      ListedIsLive(g, acts, s);
      LagsMean(Left(g, acts, s), Effects(g, acts), n);
      assert false;
    } else {
      var r :| 0 <= r < |acts| && IsRename(acts[r]) && r !in s;
      i := FirstLost(acts, s, r);
    }
    LostFromThere(acts, s, i);
    ListFrozen(g, acts, i, s);
    LiveIntact(g, acts[..i]);
    CutIsIntact(g, acts, s);
    ListIs(Left(g, acts, s), Effects(g, acts[..i]), n);
    k := RenamedSince(g, acts, i, n);
    assert SnapshotRoot in Places(acts[k]);
    LostIsUndoable(acts, s, k);
  }

  lemma LagsMean(e: State, g: State, n: string)
    requires Lags(e, g) && n in e.disk.snapshots
    ensures n in g.disk.snapshots && g.disk.snapshots[n] == e.disk.snapshots[n] && e.renamed == g.renamed
  {
  }

  lemma CutIsIntact(g: State, acts: seq<Act>, s: set<nat>)
    requires AllIntact(g, acts) && Cut(acts, s)
    ensures Intact(Left(g, acts, s))
  {
  }

  /** A rename that is not lost is remembered. */
  lemma {:induction false} RenameKept(g: State, acts: seq<Act>, s: set<nat>, c: string, t: string)
    requires (c, t) in Effects(g, acts).renamed
    requires forall j :: 0 <= j < |acts| && acts[j] == Issue(Retire(c, t)) ==> j in s
    ensures (c, t) in Left(g, acts, s).renamed
  {
    hide Effect;
    if acts != [] {
      var k := |acts| - 1;
      assert forall j :: 0 <= j < k ==> acts[..k][j] == acts[j];
      ListEffect(Effects(g, acts[..k]), acts[k]);
      ListEffect(Left(g, acts[..k], s), acts[k]);
      if (c, t) in Effects(g, acts[..k]).renamed { RenameKept(g, acts[..k], s, c, t); }
    }
  }

  lemma UnexposedUnlink(g: State, acts: seq<Act>, h: string, s: set<nat>)
    requires InOrder(g, acts) && Cut(acts, s) && IntactAlong(g, acts)
    requires !Exposes(g, acts, Unlink(h))
    requires Harmless(Effects(g, acts), Issue(Unlink(h)))
    ensures Harmless(Left(g, acts, s), Issue(Unlink(h)))
  {
    hide Effects, Left, InOrder, AllIntact, IndexOf, Undoable, RenamedNode, Cut;
    var e, l := Left(g, acts, s), Effects(g, acts);
    forall n | n in e.disk.snapshots ensures h !in HashesOf(RowsOf(e.disk, n)) {
      RowsOfNode(e.disk, n);
      if n in l.disk.snapshots && l.disk.snapshots[n] == e.disk.snapshots[n] {
        RowsOfNode(l.disk, n);
      } else {
        var k := ListedIsUndoable(g, acts, s, n);
      }
    }
  }

  lemma UnexposedDropFile(g: State, acts: seq<Act>, t: string, c: string, f: string, s: set<nat>)
    requires Cut(acts, s) && (c, t) in Effects(g, acts).renamed && !Exposes(g, acts, DropFile(t, c, f))
    ensures Harmless(Left(g, acts, s), Issue(DropFile(t, c, f)))
  {
    hide Effects, Left, Undoable, Cut;
    forall j | 0 <= j < |acts| && acts[j] == Issue(Retire(c, t)) ensures j in s {
      if j !in s { LostIsUndoable(acts, s, j); }
    }
    RenameKept(g, acts, s, c, t);
  }

  // ----- files that a retired snapshot still has, it had when it was renamed -----

  lemma FileBefore(g: State, a: Act, t: string, c: string, f: string)
    requires HasFile(Effect(g, a).disk, t, c, f) && a != Issue(Retire(c, t))
    ensures HasFile(g.disk, t, c, f)
  {
    hide Apply, ChildrenOf, Effect;
    SameRetiredChildren(g, a, t);
    if a.Issue? && Effect(g, a).disk == Apply(g.disk, a.op) {
      if a.op.Retire? { OtherRename(g.disk, a.op, t, c, f); } else { FileStep(g.disk, a.op, t, c, f); }
    }
  }

  lemma OtherRename(d: Disk, op: Op, t: string, c: string, f: string)
    requires op.Retire? && op != Retire(c, t) && HasFile(Apply(d, op), t, c, f)
    ensures HasFile(d, t, c, f)
  {
  }

  lemma FileOfRenamed(g: State, c: string, t: string, f: string)
    requires ActInOrder(g, Issue(Retire(c, t))) && HasFile(Effect(g, Issue(Retire(c, t))).disk, t, c, f)
    ensures g.disk.snapshots[c].SnapshotDir? && f in g.disk.snapshots[c].files
  {
  }

  lemma {:induction false} RenamedStays(g: State, acts: seq<Act>, j: nat, c: string, t: string)
    requires j < |acts| && acts[j] == Issue(Retire(c, t))
    ensures (c, t) in Effects(g, acts).renamed
  {
    hide Effect;
    var k := |acts| - 1;
    ListEffect(Effects(g, acts[..k]), acts[k]);
    if j < k { RenamedStays(g, acts[..k], j, c, t); }
  }

  lemma {:induction false} FileFromRename(g: State, acts: seq<Act>, j: nat, t: string, c: string, f: string)
    requires InOrder(g, acts) && j < |acts| && acts[j] == Issue(Retire(c, t))
    requires HasFile(Effects(g, acts).disk, t, c, f)
    ensures RenamedNode(g, acts, j).SnapshotDir? && f in RenamedNode(g, acts, j).files
  {
    hide HasFile, Effect;
    var k := |acts| - 1;
    InOrderPrefix(g, acts, k);
    assert ActInOrder(Effects(g, acts[..k]), acts[k]);
    if j == k {
      FileOfRenamed(Effects(g, acts[..k]), c, t, f);
    } else {
      RenamedStays(g, acts[..k], j, c, t);
      FileBefore(Effects(g, acts[..k]), acts[k], t, c, f);
      FileFromRename(g, acts[..k], j, t, c, f);
      assert acts[..k][..j] == acts[..j];
    }
  }

  // ----- a prune, operation by operation -----

  /** A file that the clean-up removes is one that a retired snapshot had after the moves. */
  lemma RemovedWasThere(d: Disk, policy: Policy, tx: string, m: nat)
    requires m < |PruneLog(d, policy, tx)| && PruneLog(d, policy, tx)[m].DropFile?
    ensures var op := PruneLog(d, policy, tx)[m];
      |MoveOps(Drops(d, policy), tx)| <= m && HasFile(Moved(d, policy, tx), op.tx, op.name, op.file)
  {
    hide MoveOps, Drops, Moved, Protected, PhaseB, PruneLog, FinishAllOps, TxList;
    var log, a, b := PruneLog(d, policy, tx), MoveOps(Drops(d, policy), tx), PhaseB(d, policy, tx);
    UnlinkIsUnprotected(d, policy, tx, m);
    LogShape(d, policy, tx, m);
    LogPhases(d, policy, tx);
    var j := m - |a| - |b|;
    assert log[m] == PhaseC(d, policy, tx)[j];
    var t := AllCleanUp(Moved(d, policy, tx).retired, TxList(d, policy, tx), j);
  }

  lemma ExposedFile(g: State, acts: seq<Act>, policy: Policy, tx: string, m: nat, op: Op, j: nat)
    requires InOrder(g, acts) && Tracked(g) && PruneStarts(Effects(g, acts), policy, tx)
    requires OpAt(LogNow(g, acts, policy, tx), m, op) && op.DropFile?
    requires RenameAt(StoppedAt(acts, LogNow(g, acts, policy, tx), m), j, op.name, op.tx)
    ensures TookFile(g, StoppedAt(acts, LogNow(g, acts, policy, tx), m), j, op.file)
  {
    hide Effects, PruneStarts, Tracked, PruneLog, InOrder, ApplyAll, MoveOps, Drops, HasFile, PhaseB;
    var d := Effects(g, acts).disk;
    var log, a := PruneLog(d, policy, tx), MoveOps(Drops(d, policy), tx);
    RemovedWasThere(d, policy, tx, m);
    MovesFirst(d, policy, tx);
    var all, moved := acts + Issues(log[..m]), acts + Issues(log[..|a|]);
    Reached(g, acts, policy, tx, |a|);
    if j >= |acts| { MoveHasNone(d, policy, tx, j - |acts|); }
    assert all[..j] == moved[..j] && all[j] == moved[j];
    assert log[..|a|] == a;
    FileFromRename(g, moved, j, op.tx, op.name, op.file);
  }

  ghost predicate OpAt(log: seq<Op>, m: nat, op: Op) {
    m < |log| && log[m] == op
  }

  ghost predicate RenameAt(acts: seq<Act>, j: nat, c: string, t: string) {
    j < |acts| && acts[j] == Issue(Retire(c, t))
  }

  /** The snapshot renamed at `j` had this file. */
  ghost predicate TookFile(g: State, acts: seq<Act>, j: nat, f: string) {
    && j < |acts| && IsRename(acts[j])
    && RenamedNode(g, acts, j).SnapshotDir? && f in RenamedNode(g, acts, j).files
  }

  /** The operation at `m` does no damage in any state that a power loss just after it could leave. */
  ghost predicate HarmlessAt(g: State, acts: seq<Act>, log: seq<Op>, m: nat) {
    m < |log| ==> AllHarmless(g, StoppedAt(acts, log, m), Issue(log[m]))
  }

  ghost predicate ExposesAt(g: State, acts: seq<Act>, log: seq<Op>, m: nat) {
    m < |log| && Exposes(g, StoppedAt(acts, log, m), log[m])
  }

  /** An operation of a prune can do damage exactly if it exposes a snapshot whose rename some
      power loss would still undo. */
  lemma DamageExactly(g: State, acts: seq<Act>, policy: Policy, tx: string, m: nat)
    requires InOrder(g, acts) && Tracked(g) && PruneStarts(Effects(g, acts), policy, tx)
    requires m < |LogNow(g, acts, policy, tx)| && IntactAlong(g, StoppedAt(acts, LogNow(g, acts, policy, tx), m))
    ensures HarmlessAt(g, acts, LogNow(g, acts, policy, tx), m) <==> !ExposesAt(g, acts, LogNow(g, acts, policy, tx), m)
  {
    hide Effects, PruneStarts, Tracked, InOrder, PruneLog, AllIntact, AllHarmless, Exposes;
    Reached(g, acts, policy, tx, m);
    if ExposesAt(g, acts, LogNow(g, acts, policy, tx), m) {
      ExposedHarms(g, acts, policy, tx, m);
    } else {
      UnexposedHarmless(g, acts, policy, tx, m);
    }
  }

  lemma ExposedHarms(g: State, acts: seq<Act>, policy: Policy, tx: string, m: nat)
    requires InOrder(g, acts) && Tracked(g) && PruneStarts(Effects(g, acts), policy, tx)
    requires IntactAlong(g, StoppedAt(acts, LogNow(g, acts, policy, tx), m))
    requires InOrder(g, StoppedAt(acts, LogNow(g, acts, policy, tx), m))
    requires ExposesAt(g, acts, LogNow(g, acts, policy, tx), m)
    ensures !HarmlessAt(g, acts, LogNow(g, acts, policy, tx), m)
  {
    hide Effects, PruneStarts, Tracked, InOrder, PruneLog, AllIntact, RenamedNode, Left, Intact, Cut, IndexOf;
    var log := LogNow(g, acts, policy, tx);
    var all := StoppedAt(acts, log, m);
    assert all[..|all|] == all;
    var j: nat;
    match log[m]
    case DropFile(t, c, f) =>
      j :| Undoable(all, j) && all[j] == Issue(Retire(c, t));
      ExposedFile(g, acts, policy, tx, m, log[m], j);
      LiveIntact(g, all[..j]);
      ExposingHarms(g, all, log[m], j);
    case Unlink(h) =>
      j :| Undoable(all, j) && h in HashesOf(IndexOf(RenamedNode(g, all, j)).rows);
      LiveIntact(g, all[..j]);
      ExposingHarms(g, all, log[m], j);
  }

  lemma UnexposedHarmless(g: State, acts: seq<Act>, policy: Policy, tx: string, m: nat)
    requires InOrder(g, acts) && Tracked(g) && PruneStarts(Effects(g, acts), policy, tx)
    requires m < |LogNow(g, acts, policy, tx)| && IntactAlong(g, StoppedAt(acts, LogNow(g, acts, policy, tx), m))
    requires InOrder(g, StoppedAt(acts, LogNow(g, acts, policy, tx), m))
    requires !ExposesAt(g, acts, LogNow(g, acts, policy, tx), m)
    ensures HarmlessAt(g, acts, LogNow(g, acts, policy, tx), m)
  {
    hide Effects, PruneStarts, Tracked, InOrder, PruneLog, AllIntact, Exposes, Left, Harmless, Cut, ApplyAll;
    var d := Effects(g, acts).disk;
    var log := PruneLog(d, policy, tx);
    var all := acts + Issues(log[..m]);
    Reached(g, acts, policy, tx, m);
    NextInOrder(g, acts, policy, tx, m);
    forall s | Cut(all + [Issue(log[m])], s) && |all| in s ensures Harmless(Left(g, all, s), Issue(log[m])) {
      var t := Before(s, |all|);
      CutBefore(all, Issue(log[m]), s);
      LeftSame(g, all, s, t);
      match log[m]
      case Unlink(h) =>
        UnlinkHarmless(Effects(g, all), d, policy, tx, m, h);
        UnexposedUnlink(g, all, h, t);
      case DropFile(x, c, f) => UnexposedDropFile(g, all, x, c, f, t);
      case _ => NoHarm(Left(g, all, s), Issue(log[m]));
    }
  }

  /** None of the first `n` operations exposes a snapshot. */
  ghost predicate Unexposed(g: State, acts: seq<Act>, log: seq<Op>, n: nat) {
    forall m: nat :: m < n ==> !ExposesAt(g, acts, log, m)
  }

  lemma {:induction false} UnexposedIsSafe(g: State, acts: seq<Act>, policy: Policy, tx: string, n: nat)
    requires InOrder(g, acts) && Tracked(g) && PruneStarts(Effects(g, acts), policy, tx)
    requires IntactAlong(g, acts) && n <= |LogNow(g, acts, policy, tx)|
    requires Unexposed(g, acts, LogNow(g, acts, policy, tx), n)
    ensures IntactAlong(g, StoppedAt(acts, LogNow(g, acts, policy, tx), n))
  {
    hide Effects, PruneStarts, Tracked, InOrder, PruneLog, AllIntact, AllHarmless, ExposesAt;
    var log := LogNow(g, acts, policy, tx);
    var all := acts + Issues(log[..n]);
    if n == 0 {
      assert all == acts;
    } else {
      var before := acts + Issues(log[..n - 1]);
      UnexposedIsSafe(g, acts, policy, tx, n - 1);
      DamageExactly(g, acts, policy, tx, n - 1);
      assert before[..|before|] == before;
      OneMoreIntact(g, before, Issue(log[n - 1]));
      assert all == before + [Issue(log[n - 1])];
      forall m: nat | m <= |all| ensures AllIntact(g, all[..m]) {
        if m <= |before| { assert all[..m] == before[..m]; } else { assert all[..m] == all; }
      }
    }
  }

  /** A prune of any policy, stopped after any number of operations, is safe against a power loss
      at each of its moments exactly if none of these exposes a snapshot. */
  lemma StoppedIsSafeExactly(g: State, acts: seq<Act>, policy: Policy, tx: string, n: nat)
    requires InOrder(g, acts) && Tracked(g) && PruneStarts(Effects(g, acts), policy, tx)
    requires IntactAlong(g, acts) && n <= |LogNow(g, acts, policy, tx)|
    ensures Safe(g, acts, Issued(LogNow(g, acts, policy, tx), n)) <==>
      Unexposed(g, acts, LogNow(g, acts, policy, tx), n)
  {
    hide Effects, PruneStarts, Tracked, InOrder, PruneLog, AllIntact, AllHarmless, ExposesAt;
    var log := LogNow(g, acts, policy, tx);
    var more := Issues(log[..n]);
    assert acts[..|acts|] == acts;
    forall m: nat | m <= n ensures more[..m] == Issues(log[..m]) {}
    if Unexposed(g, acts, log, n) {
      UnexposedIsSafe(g, acts, policy, tx, n);
      forall m: nat | m <= n ensures AllIntact(g, acts + more[..m]) {
        assert (acts + more)[..|acts| + m] == acts + more[..m];
      }
    }
    if Safe(g, acts, more) {
      SafeExactly(g, acts, more);
      forall m: nat | m < n ensures !ExposesAt(g, acts, log, m) {
        MomentsSafe(g, acts, more, m);
        DamageExactly(g, acts, policy, tx, m);
        assert AllHarmless(g, acts + more[..m], more[m]);
      }
    }
  }

  lemma MomentsSafe(g: State, acts: seq<Act>, more: seq<Act>, n: nat)
    requires Safe(g, acts, more) && n <= |more| && IntactAlong(g, acts)
    ensures IntactAlong(g, acts + more[..n])
  {
    hide AllIntact;
    var all := acts + more[..n];
    forall m: nat | m <= |acts| + n ensures AllIntact(g, all[..m]) {
      if m <= |acts| { assert all[..m] == acts[..m]; } else { assert all[..m] == acts + more[..m - |acts|]; }
    }
  }

  /** A prune that renames something, or starts with no rename pending, exposes none. */
  lemma GuardedIsUnexposed(g: State, acts: seq<Act>, policy: Policy, tx: string, n: nat)
    requires InOrder(g, acts) && Tracked(g) && PruneStarts(Effects(g, acts), policy, tx) && Guarded(g, acts, policy)
    requires IntactAlong(g, acts) && n <= |LogNow(g, acts, policy, tx)|
    ensures Unexposed(g, acts, LogNow(g, acts, policy, tx), n)
  {
    hide Effects, PruneStarts, Tracked, InOrder, PruneLog, AllIntact, Guarded, Unexposed, Safe;
    var log := LogNow(g, acts, policy, tx);
    assert acts[..|acts|] == acts;
    GuardedIsSafe(g, acts, policy, tx);
    SafePrefix(g, acts, Issues(log), n);
    assert Issues(log)[..n] == Issues(log[..n]);
    StoppedIsSafeExactly(g, acts, policy, tx, n);
  }
}
