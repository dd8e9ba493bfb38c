/** Prunes on a machine that may stop a process at any operation and lose power at any moment:
    the exact case in which that is not safe. */
module PowerPrune {
  import opened SnapshotNames
  import opened Repository
  import opened RetentionPlan
  import opened Journal
  import opened PruneSpec
  import opened PruneSteps
  import opened PruneCrash
  import opened PruneImages
  import opened Power
  import Listing

  function Issues(ops: seq<Op>): seq<Act> {
    seq(|ops|, i requires 0 <= i < |ops| => Issue(ops[i]))
  }

  /** The random name of a new transaction was never used before. */
  ghost predicate UnusedTx(g: State, tx: string) {
    forall c :: (c, tx) !in g.renamed
  }

  /** A prune can start here. */
  ghost predicate PruneStarts(g: State, policy: Policy, tx: string) {
    CanStart(g.disk, policy, tx) && UnusedTx(g, tx)
  }

  /** The log of a prune that starts now. */
  function LogNow(g: State, acts: seq<Act>, policy: Policy, tx: string): seq<Op> {
    PruneLog(Effects(g, acts).disk, policy, tx)
  }

  /** Its first `n` operations, as acts. */
  function Issued(log: seq<Op>, n: nat): seq<Act> {
    if n <= |log| then Issues(log[..n]) else Issues(log)
  }

  /** All acts issued when that prune is stopped after `n` operations. */
  function StoppedAt(acts: seq<Act>, log: seq<Op>, n: nat): seq<Act> {
    if n <= |log| then acts + Issues(log[..n]) else acts
  }

  // ----- the order of the clean-up -----

  /** Before a retired snapshot goes, its files go; before a transaction goes, its snapshots do. */
  ghost predicate CleansUp(children: map<string, SnapshotNode>, t: string, ops: seq<Op>, j: nat)
    requires j < |ops|
  {
    match ops[j]
    case DropFile(t', c, f) =>
      t' == t && c in children && children[c].SnapshotDir? && f in children[c].files
    case DropChild(t', c) =>
      && t' == t && c in children
      && (children[c].SnapshotDir? ==> forall f :: f in children[c].files ==> DropFile(t, c, f) in ops[..j])
    case DropTx(t') =>
      t' == t && forall c :: c in children ==> DropChild(t, c) in ops[..j]
    case DropMarker(t') => t' == t
    case Sync(dir) => dir == TxDir(t) || dir == RetiredRoot || exists c :: dir == Child(t, c)
    case _ => false
  }

  lemma {:induction false} DropFileOpsAre(t: string, c: string, files: seq<string>, j: nat)
    ensures |DropFileOps(t, c, files)| == |files|
    ensures j < |files| ==> DropFileOps(t, c, files)[j] == DropFile(t, c, files[j])
  {
    if files != [] { DropFileOpsAre(t, c, files[..|files| - 1], j); }
  }

  lemma ChildCleansUp(children: map<string, SnapshotNode>, t: string, c: string, j: nat)
    requires c in children && j < |ChildOps(t, c, children[c])|
    ensures CleansUp(children, t, ChildOps(t, c, children[c]), j)
    ensures !ChildOps(t, c, children[c])[j].DropTx?
  {
    var ops, node := ChildOps(t, c, children[c]), children[c];
    var files := if node.SnapshotDir? then Listing.Of(node.files.Keys) else [];
    DropFileOpsAre(t, c, files, j);
    if j < |files| {
      assert files[j] in files;
    } else if j == |files| + 1 {
      if node.SnapshotDir? {
        forall f | f in node.files ensures DropFile(t, c, f) in ops[..j] {
          assert f in files;
          var i :| 0 <= i < |files| && files[i] == f;
          DropFileOpsAre(t, c, files, i);
          assert ops[..j][i] == DropFile(t, c, f);
        }
      }
    }
  }

  lemma CleansUpLater(children: map<string, SnapshotNode>, t: string, a: seq<Op>, b: seq<Op>, c: seq<Op>, j: nat)
    requires j < |b| && CleansUp(children, t, b, j)
    ensures CleansUp(children, t, a + b + c, |a| + j)
  {
    var ops := a + b + c;
    assert ops[|a| + j] == b[j];
    forall op | op in b[..j] ensures op in ops[..|a| + j] {
      var i :| 0 <= i < j && b[..j][i] == op;
      assert ops[..|a| + j][|a| + i] == op;
    }
  }

  lemma {:induction false} ChildrenCleanUp(children: map<string, SnapshotNode>, t: string, names: seq<string>, j: nat)
    requires j < |ChildrenOps(t, children, names)|
    ensures CleansUp(children, t, ChildrenOps(t, children, names), j)
    ensures !ChildrenOps(t, children, names)[j].DropTx?
  {
    hide ChildOps, CleansUp;
    var k := |names| - 1;
    var done := ChildrenOps(t, children, names[..k]);
    var last := if names[k] in children then ChildOps(t, names[k], children[names[k]]) else [];
    assert ChildrenOps(t, children, names) == done + last;
    assert [] + done + last == done + last == done + last + [];
    if j < |done| {
      ChildrenCleanUp(children, t, names[..k], j);
      CleansUpLater(children, t, [], done, last, j);
    } else {
      ChildCleansUp(children, t, names[k], j - |done|);
      CleansUpLater(children, t, done, last, [], j - |done|);
    }
  }

  /** The end of a transaction's clean-up. */
  function FinishTail(t: string, node: Transaction): seq<Op> {
    (if node.Transaction? && node.marker.Some? then [DropMarker(t)] else [])
      + [Sync(TxDir(t)), DropTx(t), Sync(RetiredRoot)]
  }

  lemma FinishShape(t: string, node: Transaction)
    ensures node.Transaction? ==>
      FinishOps(t, node) == ChildrenOps(t, node.children, Listing.Of(node.children.Keys)) + FinishTail(t, node)
    ensures FinishOps(t, node) != [] ==> node.Transaction?
    ensures forall j :: 0 <= j < |FinishTail(t, node)| ==>
      FinishTail(t, node)[j] in {DropMarker(t), Sync(TxDir(t)), DropTx(t), Sync(RetiredRoot)}
  {
    hide ChildrenOps, Listing.Of;
  }

  lemma FinishCleansUp(t: string, node: Transaction, j: nat)
    requires j < |FinishOps(t, node)|
    ensures node.Transaction? && CleansUp(node.children, t, FinishOps(t, node), j)
  {
    hide ChildrenOps, Listing.Of, CleansUp, FinishOps, FinishTail;
    FinishShape(t, node);
    var names := Listing.Of(node.children.Keys);
    var done, rest := ChildrenOps(t, node.children, names), FinishTail(t, node);
    if j < |done| {
      ChildrenCleanUp(node.children, t, names, j);
      CleansUpLater(node.children, t, [], done, rest, j);
      assert [] + done + rest == done + rest;
    } else {
      ChildrenOpsDrop(t, node.children, names);
      forall c | c in node.children ensures DropChild(t, c) in done { assert c in names; }
      TailCleansUp(node.children, t, done, rest, j - |done|);
    }
  }

  lemma TailCleansUp(children: map<string, SnapshotNode>, t: string, done: seq<Op>, rest: seq<Op>, j: nat)
    requires j < |rest| && rest[j] in {DropMarker(t), Sync(TxDir(t)), DropTx(t), Sync(RetiredRoot)}
    requires forall c :: c in children ==> DropChild(t, c) in done
    ensures CleansUp(children, t, done + rest, |done| + j)
  {
    var ops := done + rest;
    assert ops[..|done| + j] == done + rest[..j];
    assert ops[|done| + j] == rest[j];
  }

  /** Which transaction an operation of the clean-up belongs to. */
  lemma {:induction false} AllCleanUp(retired: map<string, Transaction>, txs: seq<string>, j: nat) returns (t: string)
    requires j < |FinishAllOps(retired, txs)|
    ensures t in txs && t in retired && retired[t].Transaction?
    ensures CleansUp(retired[t].children, t, FinishAllOps(retired, txs), j)
  {
    hide FinishOps, CleansUp;
    var k := |txs| - 1;
    var done := FinishAllOps(retired, txs[..k]);
    var last := if txs[k] in retired then FinishOps(txs[k], retired[txs[k]]) else [];
    assert FinishAllOps(retired, txs) == done + last;
    assert [] + done + last == done + last == done + last + [];
    if j < |done| {
      t := AllCleanUp(retired, txs[..k], j);
      CleansUpLater(retired[t].children, t, [], done, last, j);
    } else {
      t := txs[k];
      FinishCleansUp(t, retired[t], j - |done|);
      CleansUpLater(retired[t].children, t, done, last, [], j - |done|);
    }
  }

  // ----- what the clean-up finds -----

  ghost predicate HasFile(d: Disk, t: string, c: string, f: string) {
    c in ChildrenOf(d, t) && ChildrenOf(d, t)[c].SnapshotDir? && f in ChildrenOf(d, t)[c].files
  }

  lemma FileStep(d: Disk, op: Op, t: string, c: string, f: string)
    requires !op.Retire? && HasFile(Apply(d, op), t, c, f)
    ensures HasFile(d, t, c, f) && op != DropFile(t, c, f)
  {
  }

  /** A file that is still there was not removed. */
  lemma {:induction false} FileStillThere(d: Disk, ops: seq<Op>, t: string, c: string, f: string)
    requires HasFile(ApplyAll(d, ops), t, c, f) && forall i :: 0 <= i < |ops| ==> !ops[i].Retire?
    ensures HasFile(d, t, c, f) && DropFile(t, c, f) !in ops
  {
    hide HasFile, Apply;
    if ops != [] {
      var k := |ops| - 1;
      FileStep(ApplyAll(d, ops[..k]), ops[k], t, c, f);
      FileStillThere(d, ops[..k], t, c, f);
    }
  }

  lemma {:induction false} ChildStillThere(d: Disk, ops: seq<Op>, t: string, c: string)
    requires c in ChildrenOf(ApplyAll(d, ops), t) && forall i :: 0 <= i < |ops| ==> !ops[i].Retire?
    ensures c in ChildrenOf(d, t) && DropChild(t, c) !in ops
  {
    hide ChildrenOf, Apply;
    if ops != [] {
      var k := |ops| - 1;
      ChildrenStep(ApplyAll(d, ops[..k]), ops[k], t, c);
      ChildStillThere(d, ops[..k], t, c);
    }
  }

  /** What an operation needs to be in order after the snapshots were moved. */
  lemma CleanUpOrderly(e: Disk, retired: map<string, Transaction>, txs: seq<string>, before: seq<Op>, j: nat, d: Disk)
    requires d.retired == retired && j < |FinishAllOps(retired, txs)|
    requires e == ApplyAll(d, before + FinishAllOps(retired, txs)[..j])
    requires forall i :: 0 <= i < |before| ==> !before[i].Retire?
    ensures var op := FinishAllOps(retired, txs)[j];
      && (op.DropFile? ==> op.name in ChildrenOf(d, op.tx))
      && (op.DropChild? && op.name in ChildrenOf(e, op.tx) ==> NoFiles(ChildrenOf(e, op.tx)[op.name]))
      && (op.DropTx? ==> ChildrenOf(e, op.tx) == map[])
      && !op.Retire? && !op.Unlink? && !op.MakeTx? && (op.Sync? ==> op.dir != SnapshotRoot && op.dir != ObjectRoot)
  {
    hide FinishAllOps, ApplyAll;
    var all := FinishAllOps(retired, txs);
    var t := AllCleanUp(retired, txs, j);
    var ops := before + all[..j];
    forall i | 0 <= i < |ops| ensures !ops[i].Retire? {
      if i >= |before| { var t' := AllCleanUp(retired, txs, i - |before|); }
    }
    match all[j]
    case DropChild(_, c) =>
      if c in ChildrenOf(e, t) && ChildrenOf(e, t)[c].SnapshotDir? {
        forall f | f in ChildrenOf(e, t)[c].files ensures false {
          assert HasFile(e, t, c, f);
          FileStillThere(d, ops, t, c, f);
          InAfter(before, all[..j], DropFile(t, c, f));
        }
      }
    case DropTx(_) =>
      forall c | c in ChildrenOf(e, t) ensures false {
        ChildStillThere(d, ops, t, c);
        InAfter(before, all[..j], DropChild(t, c));
      }
    case _ =>
  }

  lemma InAfter(a: seq<Op>, b: seq<Op>, op: Op)
    requires op in b
    ensures op in a + b
  {
  }

  // ----- a prune's log is orderly -----

  lemma {:induction false} LiveRenamed(g: State, ops: seq<Op>, c: string, t: string)
    requires (c, t) in Effects(g, Issues(ops)).renamed
    ensures (c, t) in g.renamed || Retire(c, t) in ops
  {
    hide Effect;
    if ops != [] {
      var k := |ops| - 1;
      assert Issues(ops)[..k] == Issues(ops[..k]);
      var e := Effects(g, Issues(ops[..k]));
      RenamedStep(e, ops[k]);
      if (c, t) in e.renamed { LiveRenamed(g, ops[..k], c, t); }
    }
  }

  lemma RenamedStep(g: State, op: Op)
    ensures var e := Effect(g, Issue(op)); e.renamed == if op.Retire? then g.renamed + {(op.name, op.tx)} else g.renamed
  {
  }

  /** Seen by the program, an operation does what it says. */
  lemma IssueApplies(g: State, op: Op)
    requires ActInOrder(g, Issue(op))
    ensures Effect(g, Issue(op)).disk == Apply(g.disk, op)
  {
  }

  lemma RetireIndex(drops: seq<string>, tx: string, m: nat) returns (k: nat)
    requires m < |MoveOps(drops, tx)| && MoveOps(drops, tx)[m].Retire?
    ensures k < |drops| && m == 6 + 3 * k && MoveOps(drops, tx)[m] == Retire(drops[k], tx)
  {
    hide MoveOps;
    MoveOpsAt(drops, tx, m);
    k := (m - 6) / 3;
  }

  lemma BeforeRetire(d: Disk, drops: seq<string>, tx: string, k: nat)
    requires tx !in d.retired && k < |drops|
    requires NoRepeats(drops) && forall n :: n in drops ==> n in d.snapshots
    ensures 6 + 3 * k < |MoveOps(drops, tx)|
    ensures var e := ApplyAll(d, MoveOps(drops, tx)[..6 + 3 * k]);
      HasTx(e, tx) && drops[k] in e.snapshots && e.snapshots[drops[k]] == d.snapshots[drops[k]]
  {
    hide ApplyAll, RetireOps, CreateOps;
    RetireOpsAt(drops, tx, k);
    RetireOpsAt(drops[..k], tx, 0);
    RetireOpsPrefix(drops, tx, k);
    CreateLength(tx);
    var ops := MoveOps(drops, tx)[..6 + 3 * k];
    assert ops == CreateOps(tx) + RetireOps(drops[..k], tx);
    forall n | n in drops[..k] ensures n in d.snapshots { assert n in drops; }
    if k == 0 {
      NoRetire(tx);
      assert drops[..0] == [];
      assert ops == CreateOps(tx);
      CreateEffect(d, tx);
    } else {
      MoveEffect(d, drops[..k], tx);
      assert drops[k] !in drops[..k];
    }
    assert drops[k] in drops;
  }

  lemma CreateLength(tx: string)
    ensures |CreateOps(tx)| == 6
  {
  }

  lemma NoRetire(tx: string)
    ensures RetireOps([], tx) == []
  {
  }

  lemma CommittedHasIndex(d: Disk, policy: Policy, n: string)
    requires Ready(d, policy) && n in d.snapshots
    ensures d.snapshots[n].SnapshotDir? && "objects.index" in d.snapshots[n].files
  {
    hide PendingOk, ObjectsOk, ReferencesOk, TotalsOk, Keeps, ArchiveOk, Canonical, ChecksumLines, IndexOf;
    assert SnapshotOk(d, n);
    assert "objects.index" in SNAPSHOT_FILES;
  }

  lemma RetireIsOrderly(g: State, policy: Policy, tx: string, m: nat)
    requires PruneStarts(g, policy, tx) && m < |MoveOps(Drops(g.disk, policy), tx)|
    requires MoveOps(Drops(g.disk, policy), tx)[m].Retire?
    requires var ops := MoveOps(Drops(g.disk, policy), tx)[..m]; Effects(g, Issues(ops)).disk == ApplyAll(g.disk, ops)
    ensures ActInOrder(Effects(g, Issues(MoveOps(Drops(g.disk, policy), tx)[..m])),
      Issue(MoveOps(Drops(g.disk, policy), tx)[m]))
  {
    hide Ready, ApplyAll, Effects, MoveOps, Drops, TxNameOk, HasTx;
    var d, a := g.disk, MoveOps(Drops(g.disk, policy), tx);
    var drops := Drops(d, policy);
    DropsPresent(d, policy);
    var k := RetireIndex(drops, tx, m);
    BeforeRetire(d, drops, tx, k);
    CommittedHasIndex(d, policy, drops[k]);
    if (drops[k], tx) in Effects(g, Issues(a[..m])).renamed {
      LiveRenamed(g, a[..m], drops[k], tx);
      var i :| 0 <= i < m && a[..m][i] == Retire(drops[k], tx);
      var k' := RetireIndex(drops, tx, i);
      assert false;
    }
  }

  /** What is known of the phases when the operation at `m` is next. */
  ghost predicate UpTo(g: State, policy: Policy, tx: string, m: nat)
    requires m <= |PruneLog(g.disk, policy, tx)|
  {
    var ops := PruneLog(g.disk, policy, tx)[..m];
    Effects(g, Issues(ops)).disk == ApplyAll(g.disk, ops)
  }

  lemma MovesFirst(d: Disk, policy: Policy, tx: string)
    ensures MoveOps(Drops(d, policy), tx) <= PruneLog(d, policy, tx)
  {
    hide MoveOps, Drops, PruneLog, PhaseB, PhaseC;
    LogPhases(d, policy, tx);
  }

  lemma IssuesGrow(g: State, ops: seq<Op>, k: nat)
    requires k <= |ops| && Tracked(g)
    ensures Effects(g, Issues(ops[..k])).renamed <= Effects(g, Issues(ops)).renamed
    ensures Tracked(Effects(g, Issues(ops[..k])))
  {
    hide Tracked;
    assert Issues(ops) == Issues(ops[..k]) + Issues(ops[k..]);
    EffectsConcat(g, Issues(ops[..k]), Issues(ops[k..]));
    LiveTracked(g, Issues(ops[..k]));
    LiveTracked(Effects(g, Issues(ops[..k])), Issues(ops[k..]));
  }

  lemma CleanUpIsOrderly(g: State, policy: Policy, tx: string, m: nat)
    requires PruneStarts(g, policy, tx) && Tracked(g) && m < |PruneLog(g.disk, policy, tx)|
    requires |MoveOps(Drops(g.disk, policy), tx)| + |PhaseB(g.disk, policy, tx)| <= m
    requires UpTo(g, policy, tx, m) && |MoveOps(Drops(g.disk, policy), tx)| <= |PruneLog(g.disk, policy, tx)|
    requires UpTo(g, policy, tx, |MoveOps(Drops(g.disk, policy), tx)|)
    ensures ActInOrder(Effects(g, Issues(PruneLog(g.disk, policy, tx)[..m])), Issue(PruneLog(g.disk, policy, tx)[m]))
  {
    hide Ready, ApplyAll, Effects, MoveOps, Drops, TxNameOk, ChildrenOf, PruneLog, PhaseB, FinishAllOps, Tracked,
      NoFiles, TxList;
    var d, log := g.disk, PruneLog(g.disk, policy, tx);
    var a, b, c := MoveOps(Drops(d, policy), tx), PhaseB(d, policy, tx), PhaseC(d, policy, tx);
    var j, e, moved := m - |a| - |b|, Effects(g, Issues(log[..m])), Moved(d, policy, tx);
    LogPhases(d, policy, tx);
    assert log[..m] == a + (b + c[..j]) && log[m] == c[j] && log[..|a|] == a;
    ApplyAllConcat(d, a, b + c[..j]);
    forall i | 0 <= i < |b| ensures !b[i].Retire? {
      LogShape(d, policy, tx, |a| + i);
      assert log[|a| + i] == b[i];
    }
    CleanUpOrderly(e.disk, moved.retired, TxList(d, policy, tx), b, j, moved);
    if log[m].DropFile? {
      IssuesGrow(g, log[..m], |a|);
      assert log[..m][..|a|] == a;
      InRenamed(Effects(g, Issues(a)), log[m].tx, log[m].name);
    }
  }

  lemma InRenamed(g: State, t: string, c: string)
    requires Tracked(g) && c in ChildrenOf(g.disk, t)
    ensures (c, t) in g.renamed
  {
  }

  lemma MoveSyncs(drops: seq<string>, tx: string, m: nat)
    requires m < |MoveOps(drops, tx)|
    ensures MoveOps(drops, tx)[m] != Sync(ObjectRoot)
  {
    hide RetireOps;
    CreateLength(tx);
    if m >= 6 {
      RetireOpsAt(drops, tx, (m - 6) / 3);
      assert MoveOps(drops, tx)[m] == RetireOps(drops, tx)[m - 6];
    }
  }

  lemma LogActInOrder(g: State, policy: Policy, tx: string, m: nat)
    requires PruneStarts(g, policy, tx) && Tracked(g) && m < |PruneLog(g.disk, policy, tx)| && UpTo(g, policy, tx, m)
    requires |MoveOps(Drops(g.disk, policy), tx)| <= m ==> UpTo(g, policy, tx, |MoveOps(Drops(g.disk, policy), tx)|)
    ensures ActInOrder(Effects(g, Issues(PruneLog(g.disk, policy, tx)[..m])), Issue(PruneLog(g.disk, policy, tx)[m]))
  {
    hide PruneStarts, ApplyAll, Effects, MoveOps, Drops, PruneLog, PhaseB, Tracked;
    var d, log := g.disk, PruneLog(g.disk, policy, tx);
    var a := MoveOps(Drops(d, policy), tx);
    LogShape(d, policy, tx, m);
    if m < |a| {
      MovesFirst(d, policy, tx);
      assert log[..m] == a[..m];
      MoveSyncs(Drops(d, policy), tx, m);
      if a[m].Retire? { RetireIsOrderly(g, policy, tx, m); } else { MoveOpsAt(Drops(d, policy), tx, m); }
    } else if |a| + |PhaseB(d, policy, tx)| <= m {
      CleanUpIsOrderly(g, policy, tx, m);
    }
  }

  /** Whatever prefix of its log a prune issued, it did so in order, and the repository it sees
      is the one its log spells. */
  lemma {:induction false} LogInOrder(g: State, policy: Policy, tx: string, m: nat)
    requires PruneStarts(g, policy, tx) && Tracked(g) && m <= |PruneLog(g.disk, policy, tx)|
    ensures InOrder(g, Issues(PruneLog(g.disk, policy, tx)[..m])) && UpTo(g, policy, tx, m)
  {
    hide PruneStarts, ActInOrder, Effects, MoveOps, Drops, PruneLog, Tracked, InOrder, ApplyAll, Apply, Effect;
    var log, a := PruneLog(g.disk, policy, tx), |MoveOps(Drops(g.disk, policy), tx)|;
    if m == 0 {
      NothingIssued(g);
      assert log[..0] == [];
    } else {
      LogInOrder(g, policy, tx, m - 1);
      if a <= m - 1 { LogInOrder(g, policy, tx, a); }
      LogActInOrder(g, policy, tx, m - 1);
      var ops := log[..m - 1];
      assert log[..m] == ops + [log[m - 1]];
      assert Issues(log[..m]) == Issues(ops) + [Issue(log[m - 1])];
      InOrderOne(g, Issues(ops), Issue(log[m - 1]));
      EffectsOne(g, Issues(ops), Issue(log[m - 1]));
      IssueApplies(Effects(g, Issues(ops)), log[m - 1]);
      ApplyAllOne(g.disk, ops, log[m - 1]);
    }
  }

  lemma NothingIssued(g: State)
    ensures Effects(g, Issues([])) == g && InOrder(g, Issues([])) && ApplyAll(g.disk, []) == g.disk
  {
  }

  // ----- renames that a power loss can still undo -----

  /** The last rename was issued and neither of its directories synced since. */
  ghost predicate UnsyncedRename(acts: seq<Act>, i: nat) {
    && i < |acts| && IsRename(acts[i])
    && forall j :: i < j < |acts| ==>
         !IsRename(acts[j]) && !SyncOf(acts[j], SnapshotRoot) && !SyncOf(acts[j], TxDir(acts[i].op.tx))
  }

  ghost predicate RenamePending(acts: seq<Act>) {
    exists i: nat :: UnsyncedRename(acts, i)
  }

  lemma {:induction false} LastRename(acts: seq<Act>, i: nat) returns (l: nat)
    requires i < |acts| && IsRename(acts[i])
    ensures i <= l < |acts| && IsRename(acts[l]) && forall j :: l < j < |acts| ==> !IsRename(acts[j])
  {
    var k := |acts| - 1;
    if IsRename(acts[k]) {
      l := k;
    } else {
      l := LastRename(acts[..k], i);
    }
  }

  /** Unless a rename is pending, every cut has all of them. */
  lemma NoneLost(acts: seq<Act>, s: set<nat>)
    requires !RenamePending(acts) && Cut(acts, s)
    ensures KeepsRenames(acts, s)
  {
    forall i | 0 <= i < |acts| && IsRename(acts[i]) ensures i in s {
      var l := LastRename(acts, i);
      assert !UnsyncedRename(acts, l);
      var j :| l < j < |acts| && (SyncOf(acts[j], SnapshotRoot) || SyncOf(acts[j], TxDir(acts[l].op.tx)));
      assert SnapshotRoot in Places(acts[l]) && TxDir(acts[l].op.tx) in Places(acts[l])
        && SnapshotRoot in Places(acts[i]);
      assert l in s;
      assert i == l || !(Places(acts[i]) !! Places(acts[l]));
    }
  }

  /** The prune renames something itself, or no earlier rename is pending. */
  ghost predicate Guarded(g: State, acts: seq<Act>, policy: Policy) {
    Drops(Effects(g, acts).disk, policy) != [] || !RenamePending(acts)
  }

  /** Once a guarded prune has made its moves, no rename is pending. */
  lemma GuardedSettles(d: Disk, acts: seq<Act>, policy: Policy, tx: string, m: nat)
    requires Drops(d, policy) != [] || !RenamePending(acts)
    requires |MoveOps(Drops(d, policy), tx)| <= m <= |PruneLog(d, policy, tx)|
    ensures !RenamePending(acts + Issues(PruneLog(d, policy, tx)[..m]))
  {
    hide MoveOps, Drops, PruneLog, PhaseB;
    var log, a, drops := PruneLog(d, policy, tx), MoveOps(Drops(d, policy), tx), Drops(d, policy);
    var all := acts + Issues(log[..m]);
    forall i | |acts| <= i < |all| && IsRename(all[i]) ensures i < |acts| + |a| {
      MoveHasNone(d, policy, tx, i - |acts|);
    }
    if drops != [] {
      MovesEnd(drops, tx);
      LogShape(d, policy, tx, |a| - 1);
      SyncedSince(all, |acts| + |a| - 1);
    } else {
      NoMoves(tx);
      assert forall j :: 0 <= j < |acts| ==> all[j] == acts[j];
      forall i: nat | UnsyncedRename(all, i) ensures UnsyncedRename(acts, i) {}
    }
  }

  lemma SyncedSince(acts: seq<Act>, p: nat)
    requires p < |acts| && SyncOf(acts[p], SnapshotRoot)
    requires forall i :: p < i < |acts| ==> !IsRename(acts[i])
    ensures !RenamePending(acts)
  {
  }

  lemma NoMoves(tx: string)
    ensures MoveOps([], tx) == []
  {
  }

  lemma MovesEnd(drops: seq<string>, tx: string)
    requires drops != []
    ensures var a := MoveOps(drops, tx); |a| >= 9 && a[|a| - 1] == Sync(SnapshotRoot)
  {
    hide RetireOps;
    RetireOpsAt(drops, tx, |drops| - 1);
    CreateLength(tx);
    var ops := RetireOps(drops, tx);
    assert MoveOps(drops, tx)[|MoveOps(drops, tx)| - 1] == ops[|ops| - 1];
  }

  // ----- a guarded prune is safe -----

  lemma UnlinkIsUnprotected(d: Disk, policy: Policy, tx: string, m: nat)
    requires m < |PruneLog(d, policy, tx)|
    ensures var op := PruneLog(d, policy, tx)[m];
      && (op.Unlink? ==> op.hash !in Protected(Moved(d, policy, tx)))
      && (op.Unlink? || op.DropFile? ==> |MoveOps(Drops(d, policy), tx)| <= m)
  {
    hide MoveOps, Drops, Moved, Protected, PhaseB, PruneLog;
    LogShape(d, policy, tx, m);
    if m < |MoveOps(Drops(d, policy), tx)| { MoveOpsAt(Drops(d, policy), tx, m); }
  }

  /** After the moves the list of snapshots does not grow. */
  lemma ListedWasMoved(d: Disk, policy: Policy, tx: string, m: nat, n: string)
    requires |MoveOps(Drops(d, policy), tx)| <= m <= |PruneLog(d, policy, tx)|
    requires n in ApplyAll(d, PruneLog(d, policy, tx)[..m]).snapshots
    ensures var moved := Moved(d, policy, tx);
      n in moved.snapshots && ApplyAll(d, PruneLog(d, policy, tx)[..m]).snapshots[n] == moved.snapshots[n]
  {
    hide MoveOps, Drops, PruneLog, ApplyAll, Retired;
    var a, log := MoveOps(Drops(d, policy), tx), PruneLog(d, policy, tx);
    MovesFirst(d, policy, tx);
    var rest := log[|a|..m];
    assert log[..m] == a + rest;
    ApplyAllConcat(d, a, rest);
    ImageAll(Moved(d, policy, tx), rest, All(|rest|));
    ImageSnapshots(Moved(d, policy, tx), rest, All(|rest|));
  }

  lemma MentionedProtected(d: Disk, n: string, h: string)
    requires n in d.snapshots && h in HashesOf(RowsOf(d, n))
    ensures h in Protected(d)
  {
    hide RowsOf;
  }

  lemma SameNodeSameRows(d: Disk, e: Disk, n: string)
    requires n in d.snapshots && n in e.snapshots && d.snapshots[n] == e.snapshots[n]
    ensures RowsOf(d, n) == RowsOf(e, n)
  {
  }

  lemma UnlinkHarmless(e: State, d: Disk, policy: Policy, tx: string, m: nat, h: string)
    requires m < |PruneLog(d, policy, tx)| && PruneLog(d, policy, tx)[m] == Unlink(h)
    requires forall n :: n in e.disk.snapshots ==>
      var l := ApplyAll(d, PruneLog(d, policy, tx)[..m]); n in l.snapshots && l.snapshots[n] == e.disk.snapshots[n]
    ensures Harmless(e, Issue(Unlink(h)))
  {
    hide MoveOps, Drops, PruneLog, ApplyAll, RowsOf, Protected, Moved;
    UnlinkIsUnprotected(d, policy, tx, m);
    var moved := Moved(d, policy, tx);
    forall n | n in e.disk.snapshots ensures h !in HashesOf(RowsOf(e.disk, n)) {
      ListedWasMoved(d, policy, tx, m, n);
      SameNodeSameRows(e.disk, moved, n);
      if h in HashesOf(RowsOf(moved, n)) { MentionedProtected(moved, n, h); }
    }
  }

  /** The acts so far, and the state they show the program when a prune has got to `m`. */
  lemma Reached(g: State, acts: seq<Act>, policy: Policy, tx: string, m: nat)
    requires InOrder(g, acts) && Tracked(g) && PruneStarts(Effects(g, acts), policy, tx)
    requires m <= |PruneLog(Effects(g, acts).disk, policy, tx)|
    ensures var log := PruneLog(Effects(g, acts).disk, policy, tx); var all := acts + Issues(log[..m]);
      && InOrder(g, all) && Effects(g, all) == Effects(Effects(g, acts), Issues(log[..m]))
      && Effects(g, all).disk == ApplyAll(Effects(g, acts).disk, log[..m])
  {
    hide Effects, PruneStarts, Tracked, InOrder, PruneLog;
    LiveTracked(g, acts);
    LogInOrder(Effects(g, acts), policy, tx, m);
    var log := PruneLog(Effects(g, acts).disk, policy, tx);
    InOrderConcat(g, acts, Issues(log[..m]));
    EffectsConcat(g, acts, Issues(log[..m]));
  }

  lemma GuardedHarmless(g: State, acts: seq<Act>, policy: Policy, tx: string, m: nat)
    requires InOrder(g, acts) && Tracked(g) && PruneStarts(Effects(g, acts), policy, tx) && Guarded(g, acts, policy)
    requires m < |PruneLog(Effects(g, acts).disk, policy, tx)|
    ensures var log := PruneLog(Effects(g, acts).disk, policy, tx);
      AllHarmless(g, acts + Issues(log[..m]), Issue(log[m]))
  {
    hide Effects, PruneStarts, Tracked, InOrder, PruneLog, Drops, Left, Cut, MoveOps, RenamePending, ApplyAll, Moved,
      Protected;
    var d := Effects(g, acts).disk;
    var log := PruneLog(d, policy, tx);
    var all := acts + Issues(log[..m]);
    UnlinkIsUnprotected(d, policy, tx, m);
    if log[m].Unlink? || log[m].DropFile? {
      Reached(g, acts, policy, tx, m);
      GuardedSettles(d, acts, policy, tx, m);
      NextInOrder(g, acts, policy, tx, m);
      forall s | Cut(all + [Issue(log[m])], s) && |all| in s ensures Harmless(Left(g, all, s), Issue(log[m])) {
        CutBefore(all, Issue(log[m]), s);
        LeftSame(g, all, s, Before(s, |all|));
        NoneLost(all, Before(s, |all|));
        ListedIsLive(g, all, Before(s, |all|));
        if log[m].Unlink? { UnlinkHarmless(Left(g, all, s), d, policy, tx, m, log[m].hash); }
      }
    } else {
      forall e: State ensures Harmless(e, Issue(log[m])) { NoHarm(e, Issue(log[m])); }
    }
  }

  lemma NextInOrder(g: State, acts: seq<Act>, policy: Policy, tx: string, m: nat)
    requires InOrder(g, acts) && Tracked(g) && PruneStarts(Effects(g, acts), policy, tx)
    requires m < |PruneLog(Effects(g, acts).disk, policy, tx)|
    ensures var log := PruneLog(Effects(g, acts).disk, policy, tx);
      ActInOrder(Effects(g, acts + Issues(log[..m])), Issue(log[m]))
  {
    hide Effects, PruneStarts, Tracked, PruneLog, ActInOrder;
    var log := PruneLog(Effects(g, acts).disk, policy, tx);
    Reached(g, acts, policy, tx, m + 1);
    var all := acts + Issues(log[..m + 1]);
    assert all[..|acts| + m] == acts + Issues(log[..m]) && all[|acts| + m] == Issue(log[m]);
  }

  lemma GuardedIsSafe(g: State, acts: seq<Act>, policy: Policy, tx: string)
    requires InOrder(g, acts) && Tracked(g) && PruneStarts(Effects(g, acts), policy, tx) && Guarded(g, acts, policy)
    requires AllIntact(g, acts)
    ensures Safe(g, acts, Issues(PruneLog(Effects(g, acts).disk, policy, tx)))
  {
    hide Effects, PruneStarts, Tracked, InOrder, PruneLog, Guarded, AllIntact, AllHarmless, Safe;
    var log := PruneLog(Effects(g, acts).disk, policy, tx);
    forall m: nat | m < |log| ensures AllHarmless(g, acts + Issues(log)[..m], Issues(log)[m]) {
      GuardedHarmless(g, acts, policy, tx, m);
      assert Issues(log)[..m] == Issues(log[..m]);
    }
    SafeExactly(g, acts, Issues(log));
  }

  // ----- an unguarded prune is not -----

  /** The change is lost with the rename at `i`, of a snapshot under the transaction `t`. */
  predicate Dragged(acts: seq<Act>, i: nat, t: string, p: nat) {
    i <= p < |acts| && (SnapshotRoot in Places(acts[p]) || TxDir(t) in Places(acts[p]))
  }

  /** The cut that loses the rename at `i`, and no more than goes with it. */
  function WithoutRename(acts: seq<Act>, i: nat, t: string): set<nat> {
    set p | p in All(|acts|) && !Dragged(acts, i, t, p)
  }

  lemma WithoutRenameIsCut(acts: seq<Act>, i: nat)
    requires UnsyncedRename(acts, i)
    ensures Cut(acts, WithoutRename(acts, i, acts[i].op.tx))
  {
    var t := acts[i].op.tx;
    var s := WithoutRename(acts, i, t);
    forall x | i <= x < |acts| && Dragged(acts, i, t, x) ensures Places(acts[x]) <= {SnapshotRoot, TxDir(t)} {
      if x > i { assert !IsRename(acts[x]); }
    }
    forall x, y | 0 <= x < y < |acts| && y in s && !(Places(acts[x]) !! Places(acts[y])) ensures x in s {
      assert !Dragged(acts, i, t, y);
    }
  }

  /** While a rename is pending, nothing may remove that snapshot's index. */
  lemma IndexRemovalHarms(g: State, acts: seq<Act>, i: nat, a: Act)
    requires UnsyncedRename(acts, i) && ActInOrder(Effects(g, acts[..i]), acts[i])
    requires Intact(Effects(g, acts[..i])) && AllIntact(g, acts)
    requires a == Issue(DropFile(acts[i].op.tx, acts[i].op.name, "objects.index"))
    ensures !AllHarmless(g, acts, a)
  {
    hide Effects, Left, Intact, Effect, WithoutRename, Cut;
    var n, t := acts[i].op.name, acts[i].op.tx;
    var all, k := acts + [a], |acts|;
    Extends(acts, i, a);
    WithoutRenameIsCut(all, i);
    var s := WithoutRename(all, i, t);
    WithoutRenameHas(acts, i, a);
    CutBefore(acts, a, s);
    var e, before := Left(g, acts, s), Effects(g, acts[..i]);
    LeftSame(g, acts, s, Before(s, k));
    ListFrozen(g, acts, i, s);
    assert Intact(e);
    SameNode(e, before, n);
    assert !Harmless(e, a);
  }

  lemma SameNode(e: State, g: State, n: string)
    requires Intact(e) && Intact(g) && e.saved == g.saved && n in g.disk.snapshots
    ensures n in e.disk.snapshots && e.disk.snapshots[n] == g.disk.snapshots[n]
  {
    hide SnapshotRecoverable;
  }

  lemma Extends(acts: seq<Act>, i: nat, a: Act)
    requires UnsyncedRename(acts, i) && a.Issue? && a.op.DropFile?
    ensures UnsyncedRename(acts + [a], i)
  {
  }

  lemma WithoutRenameHas(acts: seq<Act>, i: nat, a: Act)
    requires UnsyncedRename(acts, i) && a.Issue? && a.op.DropFile?
    ensures var s := WithoutRename(acts + [a], i, acts[i].op.tx);
      && |acts| in s && (forall j: nat :: j < i ==> j in s)
      && forall j :: i <= j < |acts| && j in s ==> SnapshotRoot !in Places(acts[j])
  {
    var all, t := acts + [a], acts[i].op.tx;
    forall j | i <= j < |acts| && j in WithoutRename(all, i, t) ensures SnapshotRoot !in Places(acts[j]) {
      assert !Dragged(all, i, t, j) && all[j] == acts[j];
    }
  }

  /** A snapshot under a transaction keeps its index until that file is removed. */
  lemma IndexStep(g: State, a: Act, t: string, n: string)
    requires HasFile(g.disk, t, n, "objects.index") && ActInOrder(g, a) && !IsRename(a)
    requires a != Issue(DropFile(t, n, "objects.index"))
    ensures HasFile(Effect(g, a).disk, t, n, "objects.index")
  {
  }

  lemma RenameMovesIndex(g: State, a: Act)
    requires IsRename(a) && ActInOrder(g, a)
    ensures HasFile(Effect(g, a).disk, a.op.tx, a.op.name, "objects.index")
  {
  }

  lemma {:induction false} IndexStays(g: State, acts: seq<Act>, i: nat)
    requires InOrder(g, acts) && UnsyncedRename(acts, i)
    requires IntactAlong(g, acts)
    ensures HasFile(Effects(g, acts).disk, acts[i].op.tx, acts[i].op.name, "objects.index")
  {
    hide HasFile, Effect, AllIntact, AllHarmless, Intact, ActInOrder;
    var k, n, t := |acts| - 1, acts[i].op.name, acts[i].op.tx;
    assert ActInOrder(Effects(g, acts[..k]), acts[k]);
    assert acts == acts[..k] + [acts[k]];
    if i == k {
      RenameMovesIndex(Effects(g, acts[..k]), acts[k]);
    } else {
      InOrderPrefixFacts(g, acts, k);
      assert UnsyncedRename(acts[..k], i);
      IndexStays(g, acts[..k], i);
      assert acts[..k][..i] == acts[..i] && acts[..|acts|] == acts;
      if acts[k] == Issue(DropFile(t, n, "objects.index")) {
        LiveIntact(g, acts[..i]);
        IndexRemovalHarms(g, acts[..k], i, acts[k]);
        OneMoreIntact(g, acts[..k], acts[k]);
        assert false;
      }
      IndexStep(Effects(g, acts[..k]), acts[k], t, n);
    }
  }

  lemma InOrderPrefixFacts(g: State, acts: seq<Act>, k: nat)
    requires InOrder(g, acts) && k <= |acts| && IntactAlong(g, acts)
    ensures InOrder(g, acts[..k]) && forall m: nat :: m <= k ==> AllIntact(g, acts[..k][..m])
  {
    hide AllIntact, ActInOrder, Effects;
    InOrderPrefix(g, acts, k);
    assert forall m: nat :: m <= k ==> acts[..k][..m] == acts[..m];
  }

  lemma {:induction false} ChildrenSyncs(t: string, children: map<string, SnapshotNode>, names: seq<string>)
    ensures forall dir :: Sync(dir) in ChildrenOps(t, children, names) ==> dir.Child?
  {
    hide DropFileOps, Listing.Of;
    if names != [] {
      var k := |names| - 1;
      ChildrenSyncs(t, children, names[..k]);
      if names[k] in children && children[names[k]].SnapshotDir? {
        DropFileOpsOnly(t, names[k], Listing.Of(children[names[k]].files.Keys));
      }
    }
  }

  lemma {:induction false} FileInChildren(t: string, children: map<string, SnapshotNode>, names: seq<string>,
      c: string, f: string)
    requires c in names && c in children && children[c].SnapshotDir? && f in children[c].files
    ensures DropFile(t, c, f) in ChildrenOps(t, children, names)
  {
    hide ChildOps;
    var k := |names| - 1;
    if names[k] == c {
      FileInChild(t, c, children[c], f);
    } else {
      FileInChildren(t, children, names[..k], c, f);
    }
  }

  lemma FileInChild(t: string, c: string, node: SnapshotNode, f: string)
    requires node.SnapshotDir? && f in node.files
    ensures DropFile(t, c, f) in ChildOps(t, c, node)
  {
    hide Listing.Of;
    var files := Listing.Of(node.files.Keys);
    assert f in files;
    var i :| 0 <= i < |files| && files[i] == f;
    DropFileOpsAre(t, c, files, i);
    assert ChildOps(t, c, node)[i] == DropFile(t, c, f);
  }

  lemma FinishRemoves(t: string, node: Transaction, c: string, f: string) returns (j: nat)
    requires node.Transaction? && c in node.children && node.children[c].SnapshotDir? && f in node.children[c].files
    ensures j < |FinishOps(t, node)| && FinishOps(t, node)[j] == DropFile(t, c, f)
    ensures forall i :: 0 <= i < j ==> FinishOps(t, node)[i] != Sync(TxDir(t))
  {
    hide ChildrenOps, Listing.Of, FinishOps, FinishTail;
    FinishShape(t, node);
    var names := Listing.Of(node.children.Keys);
    var done := ChildrenOps(t, node.children, names);
    assert c in names;
    FileInChildren(t, node.children, names, c, f);
    ChildrenSyncs(t, node.children, names);
    j :| j < |done| && done[j] == DropFile(t, c, f);
    forall i | 0 <= i < j ensures FinishOps(t, node)[i] != Sync(TxDir(t)) {
      assert FinishOps(t, node)[i] == done[i] && done[i] in done;
    }
  }

  /** The clean-up removes each file before it syncs that file's transaction. */
  lemma {:induction false} AllRemove(retired: map<string, Transaction>, txs: seq<string>, t: string, c: string,
      f: string) returns (j: nat)
    requires NoRepeats(txs) && t in txs && t in retired && retired[t].Transaction?
    requires c in retired[t].children && retired[t].children[c].SnapshotDir? && f in retired[t].children[c].files
    ensures j < |FinishAllOps(retired, txs)| && FinishAllOps(retired, txs)[j] == DropFile(t, c, f)
    ensures forall i :: 0 <= i < j ==> FinishAllOps(retired, txs)[i] != Sync(TxDir(t))
  {
    hide FinishOps;
    var k := |txs| - 1;
    var done := FinishAllOps(retired, txs[..k]);
    var last := if txs[k] in retired then FinishOps(txs[k], retired[txs[k]]) else [];
    assert FinishAllOps(retired, txs) == done + last;
    if txs[k] == t {
      var m := FinishRemoves(t, retired[t], c, f);
      j := |done| + m;
      forall i | 0 <= i < |done| ensures done[i] != Sync(TxDir(t)) {
        var t' := AllCleanUp(retired, txs[..k], i);
        assert t' in txs[..k] && t' != t;
      }
    } else {
      j := AllRemove(retired, txs[..k], t, c, f);
    }
  }

  /** A prune with nothing to rename removes the index of whatever was retired, before it syncs
      that transaction. */
  lemma IndexGoes(g: State, policy: Policy, tx: string, t: string, n: string) returns (m: nat)
    requires PruneStarts(g, policy, tx) && Drops(g.disk, policy) == [] && HasFile(g.disk, t, n, "objects.index")
    ensures m < |PruneLog(g.disk, policy, tx)| && PruneLog(g.disk, policy, tx)[m] == DropFile(t, n, "objects.index")
    ensures forall i :: 0 <= i < m ==>
      var op := PruneLog(g.disk, policy, tx)[i]; !op.Retire? && op != Sync(SnapshotRoot) && op != Sync(TxDir(t))
  {
    hide Ready, PruneLog, FinishAllOps, TxNameOk, Drops, PhaseB, Listing.Of;
    var d, log := g.disk, PruneLog(g.disk, policy, tx);
    NoMoves(tx);
    NothingMovedYet(d, policy, tx);
    LogPhases(d, policy, tx);
    TxNoRepeats(d, policy, tx);
    var txs, b := TxList(d, policy, tx), PhaseB(d, policy, tx);
    assert t in Listing.Of(d.retired.Keys);
    assert txs == Listing.Of(d.retired.Keys) + [];
    var j := AllRemove(d.retired, txs, t, n, "objects.index");
    m := |b| + j;
    forall i | 0 <= i < m ensures !log[i].Retire? && log[i] != Sync(SnapshotRoot) && log[i] != Sync(TxDir(t)) {
      LogShape(d, policy, tx, i);
      if i >= |b| {
        var t' := AllCleanUp(d.retired, txs, i - |b|);
        assert log[i] == FinishAllOps(d.retired, txs)[i - |b|];
      }
    }
  }

  lemma NothingMovedYet(d: Disk, policy: Policy, tx: string)
    requires Drops(d, policy) == []
    ensures Moved(d, policy, tx) == d
  {
    NoMoves(tx);
  }

  lemma UnguardedHarms(g: State, acts: seq<Act>, policy: Policy, tx: string)
    requires InOrder(g, acts) && Tracked(g) && PruneStarts(Effects(g, acts), policy, tx) && !Guarded(g, acts, policy)
    requires IntactAlong(g, acts)
    ensures !Safe(g, acts, Issues(PruneLog(Effects(g, acts).disk, policy, tx)))
  {
    hide Effects, PruneStarts, Tracked, InOrder, PruneLog, Drops, AllIntact, AllHarmless, HasFile, ActInOrder;
    var log := PruneLog(Effects(g, acts).disk, policy, tx);
    if Safe(g, acts, Issues(log)) {
      var i: nat :| UnsyncedRename(acts, i);
      var n, t := acts[i].op.name, acts[i].op.tx;
      IndexStays(g, acts, i);
      var m := IndexGoes(Effects(g, acts), policy, tx, t, n);
      var all := acts + Issues(log[..m]);
      assert Issues(log)[..m] == Issues(log[..m]) && acts[..|acts|] == acts;
      SafeExactly(g, acts, Issues(log));
      StillUnsynced(acts, log, m, i);
      assert all[..i] == acts[..i];
      FirstInOrder(g, acts, i);
      LiveIntact(g, acts[..i]);
      IndexRemovalHarms(g, all, i, Issue(log[m]));
      assert false;
    }
  }

  lemma FirstInOrder(g: State, acts: seq<Act>, i: nat)
    requires InOrder(g, acts) && i < |acts|
    ensures ActInOrder(Effects(g, acts[..i]), acts[i])
  {
  }

  lemma StillUnsynced(acts: seq<Act>, log: seq<Op>, m: nat, i: nat)
    requires UnsyncedRename(acts, i) && m <= |log|
    requires forall j :: 0 <= j < m ==>
      !log[j].Retire? && log[j] != Sync(SnapshotRoot) && log[j] != Sync(TxDir(acts[i].op.tx))
    ensures UnsyncedRename(acts + Issues(log[..m]), i)
  {
    var all := acts + Issues(log[..m]);
    forall j | i < j < |all|
      ensures !IsRename(all[j]) && !SyncOf(all[j], SnapshotRoot) && !SyncOf(all[j], TxDir(acts[i].op.tx))
    {
      if j >= |acts| { assert all[j] == Issue(log[j - |acts|]); }
    }
  }

  /** Whatever was stopped where before, a prune of any policy is safe against a power loss at
      every moment exactly if it renames something itself or no earlier rename is pending. */
  lemma PruneIsSafeExactly(g: State, acts: seq<Act>, policy: Policy, tx: string)
    requires InOrder(g, acts) && Tracked(g) && PruneStarts(Effects(g, acts), policy, tx)
    requires IntactAlong(g, acts)
    ensures Safe(g, acts, Issues(PruneLog(Effects(g, acts).disk, policy, tx))) <==> Guarded(g, acts, policy)
  {
    hide InOrder, Tracked, PruneStarts, PruneLog, Guarded, AllIntact, Safe;
    assert acts[..|acts|] == acts;
    if Guarded(g, acts, policy) { GuardedIsSafe(g, acts, policy, tx); } else { UnguardedHarms(g, acts, policy, tx); }
  }

  /** A prune leaves a rename pending exactly if it was stopped right after a rename. */
  lemma PendingAfterStop(acts: seq<Act>, d: Disk, policy: Policy, tx: string, n: nat)
    requires !RenamePending(acts) && n <= |PruneLog(d, policy, tx)|
    ensures RenamePending(acts + Issues(PruneLog(d, policy, tx)[..n])) <==>
      n > 0 && PruneLog(d, policy, tx)[n - 1].Retire?
  {
    hide PruneLog, MoveOps, Drops, PhaseB;
    var log := PruneLog(d, policy, tx);
    var all := acts + Issues(log[..n]);
    if n > 0 && log[n - 1].Retire? {
      assert UnsyncedRename(all, |all| - 1);
    }
    forall i: nat | UnsyncedRename(all, i) ensures i == |all| - 1 >= |acts| {
      assert forall j :: 0 <= j < |acts| ==> all[j] == acts[j];
      if i < |acts| {
        UnsyncedBefore(acts, Issues(log[..n]), i);
        assert false;
      } else if i + 1 < |all| {
        var next := all[i + 1];
        AfterRename(d, policy, tx, i - |acts|);
        assert false;
      }
    }
  }

  lemma UnsyncedBefore(acts: seq<Act>, more: seq<Act>, i: nat)
    requires UnsyncedRename(acts + more, i) && i < |acts|
    ensures RenamePending(acts)
  {
    assert forall j :: 0 <= j < |acts| ==> (acts + more)[j] == acts[j];
    assert UnsyncedRename(acts, i);
  }

  lemma AfterRename(d: Disk, policy: Policy, tx: string, p: nat)
    requires p < |PruneLog(d, policy, tx)| && PruneLog(d, policy, tx)[p].Retire?
    ensures p + 1 < |PruneLog(d, policy, tx)| && PruneLog(d, policy, tx)[p].tx == tx
    ensures PruneLog(d, policy, tx)[p + 1] == Sync(TxDir(tx))
  {
    hide PruneLog, MoveOps, Drops, PhaseB;
    MoveHasNone(d, policy, tx, p);
    LogShape(d, policy, tx, p);
    MoveOpsAt(Drops(d, policy), tx, p);
    MovesFirst(d, policy, tx);
    LogShape(d, policy, tx, p + 1);
  }
}
