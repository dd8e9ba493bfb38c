/** How the phases of a prune advance: what each operation leaves, what it adds to the report,
    and how the phases fit together into one log. */
module PruneSteps {
  import opened Wrappers
  import opened Content
  import opened SnapshotNames
  import opened Repository
  import opened RetentionPlan
  import opened Journal
  import opened PruneSpec
  import opened Sums
  import Listing

  lemma {:induction false} RetireOpsPrefix(names: seq<string>, tx: string, i: nat)
    requires i <= |names|
    ensures RetireOps(names[..i], tx) <= RetireOps(names, tx)
  {
    if i == |names| {
      assert names[..i] == names;
    } else {
      var k := |names| - 1;
      RetireOpsPrefix(names[..k], tx, i);
      assert names[..k][..i] == names[..i];
    }
  }

  lemma {:induction false} SweepOpsPrefix(objects: set<string>, protected: set<string>, buckets: seq<string>, i: nat)
    requires i <= |buckets|
    ensures SweepOps(objects, protected, buckets[..i]) <= SweepOps(objects, protected, buckets)
  {
    if i == |buckets| {
      assert buckets[..i] == buckets;
    } else {
      var k := |buckets| - 1;
      SweepOpsPrefix(objects, protected, buckets[..k], i);
      assert buckets[..k][..i] == buckets[..i];
    }
  }

  lemma {:induction false} UnlinkEachAt(hashes: seq<string>, k: nat)
    requires k <= |hashes|
    ensures |UnlinkEach(hashes)| == |hashes|
    ensures UnlinkEach(hashes)[..k] == UnlinkEach(hashes[..k])
    ensures k < |hashes| ==> UnlinkEach(hashes)[k] == Unlink(hashes[k])
  {
    if hashes != [] {
      var m := |hashes| - 1;
      if k <= m {
        UnlinkEachAt(hashes[..m], k);
        assert hashes[..m][..k] == hashes[..k];
      } else {
        UnlinkEachAt(hashes[..m], m);
        assert hashes[..k] == hashes;
      }
    }
  }

  lemma {:induction false} FilterPrefix(names: seq<string>, s: set<string>, i: nat)
    requires i <= |names|
    ensures Filter(names[..i], s) <= Filter(names, s)
  {
    if i == |names| {
      assert names[..i] == names;
    } else {
      var k := |names| - 1;
      FilterPrefix(names[..k], s, i);
      assert names[..k][..i] == names[..i];
    }
  }

  /** Walking a listing and skipping what is protected visits the doomed names in order. */
  lemma WalkStep(inside: set<string>, doomed: set<string>, i: nat, k: nat)
    requires doomed <= inside && i < |inside| && k <= |doomed|
    requires Filter(Listing.Of(inside)[..i], doomed) == Listing.Of(doomed)[..k]
    ensures var name := Listing.Of(inside)[i];
      && (name in doomed ==> k < |doomed| && Listing.Of(doomed)[k] == name)
      && (name in doomed ==>
        name !in Listing.Of(doomed)[..k] && Filter(Listing.Of(inside)[..i + 1], doomed) == Listing.Of(doomed)[..k + 1])
      && (name !in doomed ==> Filter(Listing.Of(inside)[..i + 1], doomed) == Listing.Of(doomed)[..k])
  {
    hide Listing.Of, Listing.Less;
    var names, hs := Listing.Of(inside), Listing.Of(doomed);
    assert names[..i + 1][..i] == names[..i];
    FilterPrefix(names, doomed, i + 1);
    FilterIsListing(inside, doomed);
    assert inside * doomed == doomed;
    if names[i] in doomed {
      assert Filter(names[..i + 1], doomed) == hs[..k] + [names[i]];
      Listing.OfAscending(doomed);
      forall j | 0 <= j < k ensures hs[j] != hs[k] {
        Listing.LessTotal(hs[j], hs[k]);
      }
    }
  }

  lemma {:induction false} UnlinkEffect(d: Disk, hashes: seq<string>)
    ensures ApplyAll(d, UnlinkEach(hashes)) == d.(objects := d.objects - Elements(hashes))
  {
    if hashes == [] {
      assert d.objects - {} == d.objects;
    } else {
      var k := |hashes| - 1;
      UnlinkEffect(d, hashes[..k]);
      ApplyAllOne(d, UnlinkEach(hashes[..k]), Unlink(hashes[k]));
      assert Elements(hashes) == Elements(hashes[..k]) + {hashes[k]};
    }
  }

  lemma SizesAgree(objects: map<string, ObjectNode>, gone: set<string>, s: set<string>)
    requires s !! gone
    ensures BytesOf(ObjectSizes(objects - gone), s) == BytesOf(ObjectSizes(objects), s)
  {
    SumAgrees(ObjectSizes(objects - gone), ObjectSizes(objects), Listing.Of(s));
  }

  /** What a phase may still do: run the operations `ops`, of which `n` have been performed. */
  ghost predicate Progress(d0: Disk, log0: seq<Op>, ops: seq<Op>, n: nat, d: Disk, log: seq<Op>) {
    n <= |ops| && log == log0 + ops[..n] && d == ApplyAll(d0, ops[..n])
  }

  lemma ProgressStep(d0: Disk, log0: seq<Op>, ops: seq<Op>, n: nat, d: Disk, log: seq<Op>)
    requires Progress(d0, log0, ops, n, d, log) && n < |ops|
    ensures Progress(d0, log0, ops, n + 1, Apply(d, ops[n]), log + [ops[n]])
  {
    assert ops[..n + 1] == ops[..n] + [ops[n]];
    ApplyAllOne(d0, ops[..n], ops[n]);
  }

  lemma ProgressJoin(d0: Disk, log0: seq<Op>, a: seq<Op>, b: seq<Op>, n: nat, d1: Disk, log1: seq<Op>, d: Disk,
      log: seq<Op>)
    requires Progress(d0, log0, a, |a|, d1, log1) && Progress(d1, log1, b, n, d, log)
    ensures Progress(d0, log0, a + b, |a| + n, d, log)
  {
    assert a[..|a|] == a;
    assert (a + b)[..|a| + n] == a + b[..n];
    ApplyAllConcat(d0, a, b[..n]);
  }

  lemma ProgressWiden(d0: Disk, log0: seq<Op>, a: seq<Op>, b: seq<Op>, n: nat, d: Disk, log: seq<Op>)
    requires Progress(d0, log0, a, n, d, log)
    ensures Progress(d0, log0, a + b, n, d, log)
  {
    assert (a + b)[..n] == a[..n];
  }

  lemma ProgressNone(d: Disk, log: seq<Op>, ops: seq<Op>)
    ensures Progress(d, log, ops, 0, d, log)
  {
    assert ops[..0] == [];
  }

  lemma ProgressEnd(d0: Disk, log0: seq<Op>, ops: seq<Op>, d: Disk, log: seq<Op>)
    requires Progress(d0, log0, ops, |ops|, d, log)
    ensures d == ApplyAll(d0, ops) && log == log0 + ops
  {
    assert ops[..|ops|] == ops;
  }

  lemma RetireOpsNonEmpty(names: seq<string>, tx: string)
    requires names != []
    ensures RetireOps(names, tx) != []
  {
  }

  /** The snapshots were moved; nothing else has happened. */
  ghost predicate AtMoved(d0: Disk, log0: seq<Op>, policy: Policy, tx: string, txs: seq<string>, d: Disk,
      log: seq<Op>) {
    var a := MoveOps(Drops(d0, policy), tx);
    && Ready(d0, policy) && (Drops(d0, policy) == [] || tx !in d0.retired) && txs == TxList(d0, policy, tx)
    && Progress(d0, log0, a, |a|, d, log) && d == ApplyAll(d0, a)
  }

  /** The store was swept as well. */
  ghost predicate AtSwept(d0: Disk, log0: seq<Op>, policy: Policy, tx: string, n: nat, d: Disk, log: seq<Op>) {
    var ab := MoveOps(Drops(d0, policy), tx) + PhaseB(d0, policy, tx);
    n == |ab| && Progress(d0, log0, ab, n, d, log) && d.retired == Moved(d0, policy, tx).retired
  }

  ghost predicate SweepReport(d0: Disk, policy: Policy, tx: string, objects: nat, objectBytes: int) {
    var doomed := d0.objects.Keys - Protected(Moved(d0, policy, tx));
    objects == |doomed| && objectBytes == BytesOf(ObjectSizes(d0.objects), doomed)
  }

  lemma SameRetired(d: Disk, e: Disk, txs: seq<string>)
    requires d.retired == e.retired
    ensures forall i :: 0 <= i < |txs| ==> HasTx(e, txs[i]) == HasTx(d, txs[i])
  {
  }

  lemma TxListIs(d: Disk, policy: Policy, tx: string)
    ensures TxList(d, policy, tx) == Listing.Of(d.retired.Keys) + if Drops(d, policy) == [] then [] else [tx]
  {
  }

  lemma DropsPresent(d: Disk, policy: Policy)
    requires Ready(d, policy)
    ensures NoRepeats(Drops(d, policy)) && forall n :: n in Drops(d, policy) ==> n in d.snapshots
  {
    hide PendingOk, ArchiveOk, PlanOk;
    var names := SnapshotListing(d);
    Listing.OfAscending(d.snapshots.Keys);
    forall i, j | 0 <= i < j < |names| ensures names[i] != names[j] {
      Listing.LessTotal(names[i], names[j]);
    }
    forall n | n in Drops(d, policy) ensures n in d.snapshots {
      if policy.KeepLast? { assert n in names; }
    }
  }

  /** What the later phases find once the snapshots were moved. */
  lemma AfterMove(d: Disk, policy: Policy, tx: string)
    requires Ready(d, policy) && (Drops(d, policy) == [] || tx !in d.retired)
    ensures var e := ApplyAll(d, MoveOps(Drops(d, policy), tx));
      && e == Moved(d, policy, tx) && e.objects == d.objects
      && (forall h :: h in e.objects ==> e.objects[h].ObjectFile?)
      && BytesOf(ObjectSizes(e.objects), e.objects.Keys) <= MAX_INT64
      && (forall n :: n in e.snapshots ==> Canonical(n) && IndexOf(e.snapshots[n]).ok)
      && NoRepeats(TxList(d, policy, tx))
      && forall i :: 0 <= i < |TxList(d, policy, tx)| ==>
           HasTx(e, TxList(d, policy, tx)[i]) && ChildrenOk(e.retired[TxList(d, policy, tx)[i]].children)
  {
    hide ArchiveOk, PlanOk, Canonical, IndexOf, ChildrenOk, BytesOf, ObjectSizes, Listing.Of, MoveOps, ApplyAll, Keeps,
      Drops;
    DropsPresent(d, policy);
    MoveEffect(d, Drops(d, policy), tx);
    PlanGives(d, PlanKeep(policy));
    TxListFacts(d, policy, tx);
  }

  lemma PlanGives(d: Disk, keepLast: int)
    requires PlanOk(d, keepLast, true)
    ensures forall h :: h in d.objects ==> d.objects[h].ObjectFile?
    ensures BytesOf(ObjectSizes(d.objects), d.objects.Keys) <= MAX_INT64
    ensures forall n :: n in d.snapshots ==>
      Canonical(n) && IndexOf(d.snapshots[n]).ok && RetiredChildOk(d.snapshots[n])
  {
    hide Canonical, IndexOf, FileExpected, BytesOf, ObjectSizes, ShaValid;
    forall h | h in d.objects ensures d.objects[h].ObjectFile? {
      assert ObjectOk(d, h, true);
    }
    forall n | n in d.snapshots ensures Canonical(n) && IndexOf(d.snapshots[n]).ok && RetiredChildOk(d.snapshots[n]) {
      assert SnapshotOk(d, n);
    }
  }

  lemma TxListFacts(d: Disk, policy: Policy, tx: string)
    requires PendingOk(d) && (Drops(d, policy) == [] || tx !in d.retired)
    requires forall n :: n in d.snapshots ==> Canonical(n) && RetiredChildOk(d.snapshots[n])
    ensures NoRepeats(TxList(d, policy, tx))
    ensures var e, txs := MovedDisk(d, Drops(d, policy), tx), TxList(d, policy, tx);
      forall i :: 0 <= i < |txs| ==> HasTx(e, txs[i]) && ChildrenOk(e.retired[txs[i]].children)
  {
    hide Canonical, RetiredChildOk, TxNameOk, Drops, MovedDisk, Listing.Of;
    var names, txs := Listing.Of(d.retired.Keys), TxList(d, policy, tx);
    TxNoRepeats(d, policy, tx);
    forall i | 0 <= i < |txs|
      ensures HasTx(MovedDisk(d, Drops(d, policy), tx), txs[i])
           && ChildrenOk(MovedDisk(d, Drops(d, policy), tx).retired[txs[i]].children)
    {
      if i < |names| {
        assert names[i] in names;
        OldTx(d, Drops(d, policy), tx, txs[i]);
      } else {
        NewTx(d, Drops(d, policy), tx);
      }
    }
  }

  lemma TxNoRepeats(d: Disk, policy: Policy, tx: string)
    requires Drops(d, policy) == [] || tx !in d.retired
    ensures NoRepeats(TxList(d, policy, tx))
  {
    hide Drops;
    var names, txs := Listing.Of(d.retired.Keys), TxList(d, policy, tx);
    Listing.OfAscending(d.retired.Keys);
    forall i, j | 0 <= i < j < |txs| ensures txs[i] != txs[j] {
      assert names[i] in names;
      if j < |names| { Listing.LessTotal(names[i], names[j]); }
    }
  }

  lemma OldTx(d: Disk, drops: seq<string>, tx: string, t: string)
    requires PendingOk(d) && t in d.retired && (drops == [] || tx !in d.retired)
    ensures var e := MovedDisk(d, drops, tx); HasTx(e, t) && ChildrenOk(e.retired[t].children)
  {
    hide ChildrenOk, TxNameOk;
    assert TransactionOk(d.retired[t]);
  }

  lemma NewTx(d: Disk, drops: seq<string>, tx: string)
    requires drops != [] && forall n :: n in d.snapshots ==> Canonical(n) && RetiredChildOk(d.snapshots[n])
    ensures var e := MovedDisk(d, drops, tx); HasTx(e, tx) && ChildrenOk(e.retired[tx].children)
  {
    hide Canonical, RetiredChildOk;
  }

  function PhaseB(d: Disk, policy: Policy, tx: string): seq<Op> {
    SweepOps(d.objects.Keys, Protected(Moved(d, policy, tx)), Listing.Of(Buckets(d.objects.Keys)))
  }

  function PhaseC(d: Disk, policy: Policy, tx: string): seq<Op> {
    FinishAllOps(Moved(d, policy, tx).retired, TxList(d, policy, tx))
  }

  lemma LogPhases(d: Disk, policy: Policy, tx: string)
    ensures PruneLog(d, policy, tx) == MoveOps(Drops(d, policy), tx) + (PhaseB(d, policy, tx) + PhaseC(d, policy, tx))
    ensures PruneLog(d, policy, tx) == (MoveOps(Drops(d, policy), tx) + PhaseB(d, policy, tx)) + PhaseC(d, policy, tx)
    ensures |PruneLog(d, policy, tx)| ==
      |MoveOps(Drops(d, policy), tx)| + |PhaseB(d, policy, tx)| + |PhaseC(d, policy, tx)|
  {
    hide MoveOps, SweepOps, FinishAllOps, Drops, Protected, Moved, TxList, Listing.Of;
  }

  /** While the snapshots are being moved. A log whose first phase is all there is can only
      end with it. */
  lemma PhaseOne(d0: Disk, log0: seq<Op>, policy: Policy, tx: string, n: nat, d: Disk, log: seq<Op>)
    requires Progress(d0, log0, MoveOps(Drops(d0, policy), tx), n, d, log)
    ensures Progress(d0, log0, PruneLog(d0, policy, tx), n, d, log)
    ensures n != |MoveOps(Drops(d0, policy), tx)| ==> n < |PruneLog(d0, policy, tx)|
  {
    hide MoveOps, PhaseB, PhaseC, Drops, PruneLog, ApplyAll;
    LogPhases(d0, policy, tx);
    ProgressWiden(d0, log0, MoveOps(Drops(d0, policy), tx), PhaseB(d0, policy, tx) + PhaseC(d0, policy, tx), n, d, log);
  }

  lemma PhaseTwo(d0: Disk, log0: seq<Op>, policy: Policy, tx: string, d1: Disk, log1: seq<Op>, m: nat, d: Disk,
      log: seq<Op>)
    requires d1.objects == d0.objects && d1 == Moved(d0, policy, tx)
    requires var a := MoveOps(Drops(d0, policy), tx); Progress(d0, log0, a, |a|, d1, log1)
    requires Progress(d1, log1,
      SweepOps(d1.objects.Keys, Protected(d1), Listing.Of(Buckets(d1.objects.Keys))), m, d, log)
    ensures Progress(d0, log0, PruneLog(d0, policy, tx), |MoveOps(Drops(d0, policy), tx)| + m, d, log)
    ensures Progress(d0, log0, MoveOps(Drops(d0, policy), tx) + PhaseB(d0, policy, tx),
      |MoveOps(Drops(d0, policy), tx)| + m, d, log)
    ensures m != |PhaseB(d0, policy, tx)| ==> |MoveOps(Drops(d0, policy), tx)| + m < |PruneLog(d0, policy, tx)|
  {
    hide MoveOps, SweepOps, PhaseC, Drops, PruneLog, ApplyAll, Protected, Moved, Listing.Of, Buckets;
    LogPhases(d0, policy, tx);
    var a, b := MoveOps(Drops(d0, policy), tx), PhaseB(d0, policy, tx);
    ProgressJoin(d0, log0, a, b, m, d1, log1, d, log);
    ProgressWiden(d0, log0, a + b, PhaseC(d0, policy, tx), |a| + m, d, log);
  }

  lemma PhaseThree(d0: Disk, log0: seq<Op>, policy: Policy, tx: string, n: nat, d2: Disk, log2: seq<Op>, m: nat,
      d: Disk, log: seq<Op>)
    requires AtSwept(d0, log0, policy, tx, n, d2, log2)
    requires Progress(d2, log2, FinishAllOps(d2.retired, TxList(d0, policy, tx)), m, d, log)
    ensures Progress(d0, log0, PruneLog(d0, policy, tx), n + m, d, log)
    ensures n + m == |PruneLog(d0, policy, tx)| <==> m == |PhaseC(d0, policy, tx)|
  {
    hide MoveOps, PhaseB, FinishAllOps, Drops, PruneLog, ApplyAll, Moved, TxList;
    LogPhases(d0, policy, tx);
    ProgressJoin(d0, log0, MoveOps(Drops(d0, policy), tx) + PhaseB(d0, policy, tx), PhaseC(d0, policy, tx),
      m, d2, log2, d, log);
  }

  // ----- what moving the snapshots does -----

  function Chosen(snapshots: map<string, SnapshotNode>, names: seq<string>): map<string, SnapshotNode> {
    map n | n in names && n in snapshots :: snapshots[n]
  }

  ghost predicate NoRepeats(names: seq<string>) {
    forall i, j :: 0 <= i < j < |names| ==> names[i] != names[j]
  }

  /** The repository after some snapshots were renamed under a transaction. */
  function RetiredTo(d: Disk, names: seq<string>, tx: string): Disk
    requires HasTx(d, tx)
  {
    d.(snapshots := d.snapshots - Elements(names),
       retired := d.retired[tx := d.retired[tx].(children := d.retired[tx].children + Chosen(d.snapshots, names))])
  }

  lemma RetiredToNone(d: Disk, tx: string)
    requires HasTx(d, tx)
    ensures RetiredTo(d, [], tx) == d
  {
    var t := d.retired[tx];
    assert d.snapshots - Elements([]) == d.snapshots;
    assert t.children + Chosen(d.snapshots, []) == t.children;
    MapTwice(d.retired, tx, t, t);
  }

  lemma {:induction false} RetireEffect(d: Disk, names: seq<string>, tx: string)
    requires HasTx(d, tx) && NoRepeats(names) && forall n :: n in names ==> n in d.snapshots
    ensures ApplyAll(d, RetireOps(names, tx)) == RetiredTo(d, names, tx)
  {
    hide Apply, ApplyAll, RetiredTo;
    if names == [] {
      RetiredToNone(d, tx);
      ApplyNothing(d);
    } else {
      var k := |names| - 1;
      var done, name := names[..k], names[k];
      assert names == done + [name];
      RetireEffect(d, done, tx);
      RetireOne(d, done, name, tx);
      ApplyAllConcat(d, RetireOps(done, tx), [Retire(name, tx), Sync(TxDir(tx)), Sync(SnapshotRoot)]);
    }
  }

  lemma ApplyNothing(d: Disk)
    ensures ApplyAll(d, []) == d
  {
  }

  lemma RetireOne(d: Disk, done: seq<string>, name: string, tx: string)
    requires HasTx(d, tx) && name !in done && name in d.snapshots
    ensures ApplyAll(RetiredTo(d, done, tx), [Retire(name, tx), Sync(TxDir(tx)), Sync(SnapshotRoot)])
         == RetiredTo(d, done + [name], tx)
  {
    var e := RetiredTo(d, done, tx);
    var t := d.retired[tx];
    MapMinus(d.snapshots, Elements(done), {name});
    assert Elements(done + [name]) == Elements(done) + {name};
    assert (t.children + Chosen(d.snapshots, done))[name := d.snapshots[name]] ==
      t.children + Chosen(d.snapshots, done + [name]);
    MapTwice(d.retired, tx, t.(children := t.children + Chosen(d.snapshots, done)),
      t.(children := t.children + Chosen(d.snapshots, done + [name])));
    assert Apply(e, Retire(name, tx)) == RetiredTo(d, done + [name], tx);
    ApplyAllThree(e, Retire(name, tx), Sync(TxDir(tx)), Sync(SnapshotRoot));
  }

  lemma ApplyAllThree(d: Disk, a: Op, b: Op, c: Op)
    ensures ApplyAll(d, [a, b, c]) == Apply(Apply(Apply(d, a), b), c)
  {
    ApplyNothing(d);
    ApplyAllOne(d, [], a);
    ApplyAllOne(d, [a], b);
    ApplyAllOne(d, [a, b], c);
    assert [] + [a] == [a] && [a] + [b] == [a, b] && [a, b] + [c] == [a, b, c];
  }

  lemma CreateEffect(d: Disk, tx: string)
    requires tx !in d.retired
    ensures ApplyAll(d, CreateOps(tx)) ==
      d.(hasRetiredRoot := true, retired := d.retired[tx := Transaction(Some(RegularFile(Lines(MARKER))), map[])])
  {
    var ops := CreateOps(tx);
    ApplyAllOne(d, ops[..5], ops[5]);
    ApplyAllOne(d, ops[..4], ops[4]);
    ApplyAllOne(d, ops[..3], ops[3]);
    ApplyAllOne(d, ops[..2], ops[2]);
    ApplyAllOne(d, ops[..1], ops[1]);
    ApplyAllOne(d, [], ops[0]);
    assert ops[..5] + [ops[5]] == ops && ops[..4] + [ops[4]] == ops[..5] && ops[..3] + [ops[3]] == ops[..4];
    assert ops[..2] + [ops[2]] == ops[..3] && ops[..1] + [ops[1]] == ops[..2] && [] + [ops[0]] == ops[..1];
    MapTwice(d.retired, tx, Transaction(None, map[]), Transaction(Some(RegularFile(Lines(MARKER))), map[]));
  }

  /** The repository after the snapshots were moved. */
  function MovedDisk(d: Disk, drops: seq<string>, tx: string): Disk {
    if drops == [] then d
    else d.(hasRetiredRoot := true, snapshots := d.snapshots - Elements(drops),
            retired := d.retired[tx := Transaction(Some(RegularFile(Lines(MARKER))), Chosen(d.snapshots, drops))])
  }

  lemma MoveEffect(d: Disk, drops: seq<string>, tx: string)
    requires drops != [] ==> tx !in d.retired
    requires NoRepeats(drops) && forall n :: n in drops ==> n in d.snapshots
    ensures ApplyAll(d, MoveOps(drops, tx)) == MovedDisk(d, drops, tx)
  {
    if drops != [] {
      CreateEffect(d, tx);
      ApplyAllConcat(d, CreateOps(tx), RetireOps(drops, tx));
      var e := ApplyAll(d, CreateOps(tx));
      RetireEffect(e, drops, tx);
      assert map[] + Chosen(e.snapshots, drops) == Chosen(d.snapshots, drops);
      MapTwice(d.retired, tx, Transaction(Some(RegularFile(Lines(MARKER))), map[]),
        Transaction(Some(RegularFile(Lines(MARKER))), Chosen(d.snapshots, drops)));
    }
  }

  lemma {:induction false} WithoutElements(names: seq<string>, name: string)
    ensures forall x :: x in Without(names, name) <==> x in names && x != name
  {
    if names != [] {
      var k := |names| - 1;
      WithoutElements(names[..k], name);
      assert names == names[..k] + [names[k]];
    }
  }

  lemma KeepsCanonical(d: Disk, policy: Policy)
    requires PlanOk(d, PlanKeep(policy), true)
    ensures forall n :: n in Keeps(d, policy) ==> n in d.snapshots && Canonical(n)
  {
    hide Canonical, Committed, TotalsOk;
    if policy.DropSelected? { WithoutElements(SnapshotListing(d), policy.name); }
    forall n | n in Keeps(d, policy) ensures n in d.snapshots && Canonical(n) {
      assert n in SnapshotListing(d);
      assert SnapshotOk(d, n);
    }
  }

  lemma FinishStart(d: Disk, log: seq<Op>, txs: seq<string>)
    ensures Progress(d, log, FinishAllOps(d.retired, txs), 0, d, log)
    ensures d == d.(retired := d.retired - Elements(txs[..0]))
    ensures SumBytes(TxCounts(d.retired), txs[..0]) == SumBytes(TxSizes(d.retired), txs[..0]) == 0
  {
    assert d.retired - {} == d.retired;
  }

  /** The next transaction is still there, as it was. */
  lemma FinishNext(d: Disk, txs: seq<string>, i: nat)
    requires i < |txs| && HasTx(d, txs[i])
    requires forall i, j :: 0 <= i < j < |txs| ==> txs[i] != txs[j]
    ensures var e := d.(retired := d.retired - Elements(txs[..i]));
      && HasTx(e, txs[i]) && e.retired[txs[i]] == d.retired[txs[i]]
      && SizeOf(TxSizes(e.retired), txs[i]) == SizeOf(TxSizes(d.retired), txs[i])
      && SizeOf(TxCounts(e.retired), txs[i]) == SizeOf(TxCounts(d.retired), txs[i])
      && e.retired - {txs[i]} == d.retired - Elements(txs[..i + 1])
    ensures SumBytes(TxSizes(d.retired), txs[..i + 1]) ==
      SumBytes(TxSizes(d.retired), txs[..i]) + SizeOf(TxSizes(d.retired), txs[i])
    ensures SumBytes(TxSizes(d.retired), txs[..i + 1]) <= SumBytes(TxSizes(d.retired), txs)
    ensures SumBytes(TxCounts(d.retired), txs[..i + 1]) ==
      SumBytes(TxCounts(d.retired), txs[..i]) + SizeOf(TxCounts(d.retired), txs[i])
  {
    hide SumBytes, TxSizes, TxCounts, SizeOf;
    SumBytesStep(TxSizes(d.retired), txs, i);
    SumBytesStep(TxCounts(d.retired), txs, i);
    assert txs[..i + 1] == txs[..i] + [txs[i]];
    assert Elements(txs[..i + 1]) == Elements(txs[..i]) + {txs[i]};
    MapMinus(d.retired, Elements(txs[..i]), {txs[i]});
    SameTxFigures(d.retired, d.retired - Elements(txs[..i]), txs[i]);
  }

  lemma SameTxFigures(a: map<string, Transaction>, b: map<string, Transaction>, tx: string)
    requires tx in a && tx in b && a[tx] == b[tx]
    ensures SizeOf(TxSizes(a), tx) == SizeOf(TxSizes(b), tx) && SizeOf(TxCounts(a), tx) == SizeOf(TxCounts(b), tx)
  {
    hide SumBytes, Listing.Of, ChildSizes, ChildCounts;
  }

  lemma {:induction false} FinishAllOpsPrefix(retired: map<string, Transaction>, txs: seq<string>, i: nat)
    requires i <= |txs|
    ensures FinishAllOps(retired, txs[..i]) <= FinishAllOps(retired, txs)
  {
    if i == |txs| {
      assert txs[..i] == txs;
    } else {
      var k := |txs| - 1;
      FinishAllOpsPrefix(retired, txs[..k], i);
      assert txs[..k][..i] == txs[..i];
    }
  }

  lemma FinishAdvance(d0: Disk, log0: seq<Op>, txs: seq<string>, i: nat, n: nat,
                      d1: Disk, log1: seq<Op>, m: nat, d: Disk, log: seq<Op>)
    requires i < |txs| && txs[i] in d0.retired
    requires var ops := FinishAllOps(d0.retired, txs);
      n <= |ops| && ops[..n] == FinishAllOps(d0.retired, txs[..i]) && Progress(d0, log0, ops, n, d1, log1)
    requires Progress(d1, log1, FinishOps(txs[i], d0.retired[txs[i]]), m, d, log)
    ensures var ops, b := FinishAllOps(d0.retired, txs), FinishOps(txs[i], d0.retired[txs[i]]);
      && Progress(d0, log0, ops, n + m, d, log) && n + m <= |ops|
      && (m != |b| ==> n + m < |ops|)
      && (m == |b| ==> ops[..n + m] == FinishAllOps(d0.retired, txs[..i + 1]))
  {
    hide FinishOps, ApplyAll, Apply;
    var ops, b := FinishAllOps(d0.retired, txs), FinishOps(txs[i], d0.retired[txs[i]]);
    FinishAllOpsPrefix(d0.retired, txs, i + 1);
    assert txs[..i + 1][..i] == txs[..i];
    assert ops[..n] + b == FinishAllOps(d0.retired, txs[..i + 1]);
    ProgressInside(d0, log0, ops, n, b, d1, log1, m, d, log);
  }

  function WithoutChildren(d: Disk, tx: string, names: seq<string>): Disk
    requires HasTx(d, tx)
  {
    d.(retired := d.retired[tx := d.retired[tx].(children := d.retired[tx].children - Elements(names))])
  }

  /** Where a transaction's clean-up stands after `i` of its snapshots. */
  ghost predicate TxDone(d: Disk, tx: string, i: nat, n: nat, count: int, bytes: int)
    requires HasTx(d, tx)
  {
    var children := d.retired[tx].children;
    var names, ops := Listing.Of(children.Keys), FinishOps(tx, d.retired[tx]);
    && i <= |names| && n <= |ops| && ops[..n] == ChildrenOps(tx, children, names[..i])
    && count == SumBytes(ChildCounts(children), names[..i]) && bytes == SumBytes(ChildSizes(children), names[..i])
  }

  lemma {:induction false} ChildrenOpsPrefix(tx: string, children: map<string, SnapshotNode>, names: seq<string>,
      i: nat)
    requires i <= |names|
    ensures ChildrenOps(tx, children, names[..i]) <= ChildrenOps(tx, children, names)
  {
    if i == |names| {
      assert names[..i] == names;
    } else {
      var k := |names| - 1;
      ChildrenOpsPrefix(tx, children, names[..k], i);
      assert names[..k][..i] == names[..i];
    }
  }

  lemma TxStart(d: Disk, log: seq<Op>, tx: string)
    requires HasTx(d, tx)
    ensures Progress(d, log, FinishOps(tx, d.retired[tx]), 0, d, log)
    ensures TxDone(d, tx, 0, 0, 0, 0)
    ensures d == WithoutChildren(d, tx, Listing.Of(d.retired[tx].children.Keys)[..0])
  {
    var t := d.retired[tx];
    assert Elements([]) == {};
    assert t.children - {} == t.children;
    MapTwice(d.retired, tx, t, t);
  }

  /** The next retired snapshot is still there, as it was. */
  lemma TxChild(d: Disk, tx: string, i: nat)
    requires HasTx(d, tx) && ChildrenOk(d.retired[tx].children) && i < |d.retired[tx].children.Keys|
    ensures var names := Listing.Of(d.retired[tx].children.Keys);
      var children := WithoutChildren(d, tx, names[..i]).retired[tx].children;
      && names[i] in children && children[names[i]] == d.retired[tx].children[names[i]]
      && RetiredChildOk(children[names[i]])
  {
    hide Listing.Of;
    var names := Listing.Of(d.retired[tx].children.Keys);
    assert names[i] in names;
    Listing.OfAscending(d.retired[tx].children.Keys);
    forall j | 0 <= j < i ensures names[j] != names[i] {
      Listing.LessTotal(names[j], names[i]);
    }
  }

  lemma TxAdvance(d0: Disk, log0: seq<Op>, tx: string, i: nat, n: nat, count: int, bytes: int,
                  d1: Disk, log1: seq<Op>, m: nat, d: Disk, log: seq<Op>)
    requires HasTx(d0, tx) && i < |d0.retired[tx].children.Keys| && TxDone(d0, tx, i, n, count, bytes)
    requires var names, children := Listing.Of(d0.retired[tx].children.Keys), d0.retired[tx].children;
      && names[i] in children && children[names[i]].SnapshotDir?
      && Progress(d0, log0, FinishOps(tx, d0.retired[tx]), n, d1, log1)
      && Progress(d1, log1, ChildOps(tx, names[i], children[names[i]]), m, d, log)
    ensures var names, children := Listing.Of(d0.retired[tx].children.Keys), d0.retired[tx].children;
      var ops, b, files :=
        FinishOps(tx, d0.retired[tx]), ChildOps(tx, names[i], children[names[i]]), children[names[i]].files;
      && Progress(d0, log0, ops, n + m, d, log)
      && (m != |b| ==> n + m < |ops|)
      && (m == |b| ==> TxDone(d0, tx, i + 1, n + m, count + |files.Keys|, bytes + FilesSize(files)))
      && bytes + FilesSize(files) <= SizeOf(TxSizes(d0.retired), tx)
      && WithoutChild(WithoutChildren(d0, tx, names[..i]), tx, names[i]) == WithoutChildren(d0, tx, names[..i + 1])
  {
    hide Listing.Of, ApplyAll, Apply, ChildOps, FilesSize, ChildrenOps, FinishOps, TxSizes, SizeOf, SumBytes,
      ChildSizes, ChildCounts, WithoutChild, WithoutChildren;
    var names, children := Listing.Of(d0.retired[tx].children.Keys), d0.retired[tx].children;
    TxAdvanceOps(d0, tx, i, n);
    ProgressInside(d0, log0, FinishOps(tx, d0.retired[tx]), n, ChildOps(tx, names[i], children[names[i]]), d1, log1,
      m, d, log);
    TxAdvanceSums(d0, tx, i);
    TxAdvanceDisk(d0, tx, names[..i], names[i]);
    assert names[..i + 1] == names[..i] + [names[i]];
  }

  lemma TxAdvanceOps(d0: Disk, tx: string, i: nat, n: nat)
    requires HasTx(d0, tx) && i < |d0.retired[tx].children.Keys|
    requires var names, children, ops :=
        Listing.Of(d0.retired[tx].children.Keys), d0.retired[tx].children, FinishOps(tx, d0.retired[tx]);
      names[i] in children && n <= |ops| && ops[..n] == ChildrenOps(tx, children, names[..i])
    ensures var names, children, ops :=
        Listing.Of(d0.retired[tx].children.Keys), d0.retired[tx].children, FinishOps(tx, d0.retired[tx]);
      var b := ChildOps(tx, names[i], children[names[i]]);
      && ops[..n] + b <= ops && n + |b| < |ops| && ops[..n] + b == ChildrenOps(tx, children, names[..i + 1])
  {
    hide Listing.Of, ChildOps, ChildrenOps, FinishOps;
    var names, children := Listing.Of(d0.retired[tx].children.Keys), d0.retired[tx].children;
    var all := ChildrenOps(tx, children, names);
    ChildrenOpsPrefix(tx, children, names, i + 1);
    ChildrenOpsStep(tx, children, names, i);
    FinishOpsShape(tx, d0.retired[tx]);
    PrefixStep(ChildrenOps(tx, children, names[..i]), ChildOps(tx, names[i], children[names[i]]),
      ChildrenOps(tx, children, names[..i + 1]), all, FinishOps(tx, d0.retired[tx]), n);
  }

  lemma ChildrenOpsStep(tx: string, children: map<string, SnapshotNode>, names: seq<string>, i: nat)
    requires i < |names| && names[i] in children
    ensures ChildrenOps(tx, children, names[..i + 1]) ==
      ChildrenOps(tx, children, names[..i]) + ChildOps(tx, names[i], children[names[i]])
  {
    hide ChildOps;
    assert names[..i + 1][..i] == names[..i];
  }

  lemma PrefixStep<T>(a: seq<T>, b: seq<T>, c: seq<T>, all: seq<T>, ops: seq<T>, n: nat)
    requires n <= |ops| && ops[..n] == a && c == a + b && c <= all && all <= ops && |all| < |ops|
    ensures ops[..n] + b <= ops && n + |b| < |ops|
  {
  }

  lemma FinishOpsShape(tx: string, node: Transaction)
    requires node.Transaction?
    ensures var all, ops := ChildrenOps(tx, node.children, Listing.Of(node.children.Keys)), FinishOps(tx, node);
      |all| < |ops| && ops == all + ops[|all|..]
  {
    hide Listing.Of, ChildrenOps;
  }

  lemma TxAdvanceSums(d0: Disk, tx: string, i: nat)
    requires HasTx(d0, tx) && i < |d0.retired[tx].children.Keys|
    requires var names, children := Listing.Of(d0.retired[tx].children.Keys), d0.retired[tx].children;
      names[i] in children && children[names[i]].SnapshotDir?
    ensures var names, children := Listing.Of(d0.retired[tx].children.Keys), d0.retired[tx].children;
      var files := children[names[i]].files;
      && SumBytes(ChildSizes(children), names[..i + 1]) == SumBytes(ChildSizes(children), names[..i]) + FilesSize(files)
      && SumBytes(ChildCounts(children), names[..i + 1]) == SumBytes(ChildCounts(children), names[..i]) + |files.Keys|
      && SumBytes(ChildSizes(children), names[..i + 1]) <= SizeOf(TxSizes(d0.retired), tx)
  {
    hide Listing.Of, FilesSize, SumBytes;
    var names, children := Listing.Of(d0.retired[tx].children.Keys), d0.retired[tx].children;
    SumBytesStep(ChildSizes(children), names, i);
    SumBytesStep(ChildCounts(children), names, i);
  }

  lemma TxAdvanceDisk(d: Disk, tx: string, done: seq<string>, name: string)
    requires HasTx(d, tx)
    ensures HasTx(WithoutChildren(d, tx, done), tx)
    ensures WithoutChild(WithoutChildren(d, tx, done), tx, name) == WithoutChildren(d, tx, done + [name])
  {
    var t := d.retired[tx];
    MapMinus(t.children, Elements(done), {name});
    assert Elements(done + [name]) == Elements(done) + {name};
    MapTwice(d.retired, tx, t.(children := t.children - Elements(done)),
      t.(children := t.children - Elements(done + [name])));
  }

  /** All retired snapshots of a transaction are gone: what remains to do, and what it leaves. */
  lemma TxEnd(d0: Disk, tx: string, n: nat, count: int, bytes: int)
    requires HasTx(d0, tx) && TxDone(d0, tx, |d0.retired[tx].children.Keys|, n, count, bytes)
    ensures count == SizeOf(TxCounts(d0.retired), tx) && bytes == SizeOf(TxSizes(d0.retired), tx)
    ensures var names, ops := Listing.Of(d0.retired[tx].children.Keys), FinishOps(tx, d0.retired[tx]);
      var d := WithoutChildren(d0, tx, names[..|names|]);
      var k := if d0.retired[tx].marker.Some? then n + 1 else n;
      var e := if d0.retired[tx].marker.Some? then Apply(d, DropMarker(tx)) else d;
      && d.retired[tx].marker == d0.retired[tx].marker
      && |ops| == k + 3 && (k > n ==> ops[n] == DropMarker(tx))
      && ops[k] == Sync(TxDir(tx)) && ops[k + 1] == DropTx(tx) && ops[k + 2] == Sync(RetiredRoot)
      && Apply(Apply(Apply(e, Sync(TxDir(tx))), DropTx(tx)), Sync(RetiredRoot)) == d0.(retired := d0.retired - {tx})
  {
    hide Listing.Of, SumBytes, ChildrenOps;
    var names := Listing.Of(d0.retired[tx].children.Keys);
    assert names[..|names|] == names;
    TxVanishes(d0, tx, names);
  }

  lemma TxVanishes(d0: Disk, tx: string, names: seq<string>)
    requires HasTx(d0, tx)
    ensures var d := WithoutChildren(d0, tx, names);
      var e := if d0.retired[tx].marker.Some? then Apply(d, DropMarker(tx)) else d;
      Apply(Apply(Apply(e, Sync(TxDir(tx))), DropTx(tx)), Sync(RetiredRoot)) == d0.(retired := d0.retired - {tx})
  {
    var t := d0.retired[tx];
    MapTwice(d0.retired, tx, t.(children := t.children - Elements(names)), t);
    MapTwice(d0.retired, tx, t.(children := t.children - Elements(names)),
      t.(children := t.children - Elements(names), marker := None));
    MapTwice(d0.retired, tx, t.(children := t.children - Elements(names), marker := None), t);
  }

  function WithoutChild(d: Disk, tx: string, name: string): Disk
    requires HasTx(d, tx)
  {
    d.(retired := d.retired[tx := d.retired[tx].(children := d.retired[tx].children - {name})])
  }

  lemma {:induction false} DropFileOpsAt(tx: string, name: string, files: seq<string>, k: nat)
    requires k <= |files|
    ensures |DropFileOps(tx, name, files)| == |files|
    ensures k < |files| ==> DropFileOps(tx, name, files)[k] == DropFile(tx, name, files[k])
  {
    if files != [] {
      var m := |files| - 1;
      DropFileOpsAt(tx, name, files[..m], if k < m then k else m);
    }
  }

  function WithChild(d: Disk, tx: string, name: string, node: SnapshotNode): Disk
    requires HasTx(d, tx)
  {
    d.(retired := d.retired[tx := d.retired[tx].(children := d.retired[tx].children[name := node])])
  }

  lemma WithChildTwice(d: Disk, tx: string, name: string, x: SnapshotNode, y: SnapshotNode)
    requires HasTx(d, tx)
    ensures WithChild(WithChild(d, tx, name, x), tx, name, y) == WithChild(d, tx, name, y)
    ensures WithoutChild(WithChild(d, tx, name, x), tx, name) == WithoutChild(d, tx, name)
    ensures name in d.retired[tx].children && d.retired[tx].children[name] == x ==> WithChild(d, tx, name, x) == d
    ensures HasTx(WithChild(d, tx, name, x), tx)
  {
    var t := d.retired[tx];
    MapTwice(t.children, name, x, y);
    MapTwice(d.retired, tx, t.(children := t.children[name := x]), t.(children := t.children[name := y]));
    MapTwice(d.retired, tx, t.(children := t.children[name := x]), t.(children := t.children - {name}));
    MapTwice(d.retired, tx, t, t);
  }

  lemma {:induction false} DropFilesEffect(d: Disk, tx: string, name: string, files: seq<string>)
    requires HasTx(d, tx) && name in d.retired[tx].children && d.retired[tx].children[name].SnapshotDir?
    ensures ApplyAll(d, DropFileOps(tx, name, files)) ==
      WithChild(d, tx, name, SnapshotDir(d.retired[tx].children[name].files - Elements(files)))
  {
    var all := d.retired[tx].children[name].files;
    if files == [] {
      assert all - Elements([]) == all;
      WithChildTwice(d, tx, name, SnapshotDir(all), SnapshotDir(all));
    } else {
      var k := |files| - 1;
      DropFilesEffect(d, tx, name, files[..k]);
      ApplyAllOne(d, DropFileOps(tx, name, files[..k]), DropFile(tx, name, files[k]));
      var left := all - Elements(files[..k]);
      MapMinus(all, Elements(files[..k]), {files[k]});
      assert Elements(files) == Elements(files[..k]) + {files[k]};
      WithChildTwice(d, tx, name, SnapshotDir(left), SnapshotDir(left - {files[k]}));
    }
  }

  lemma ChildStart(d: Disk, log: seq<Op>, tx: string, name: string)
    requires HasTx(d, tx) && name in d.retired[tx].children && d.retired[tx].children[name].SnapshotDir?
    ensures Progress(d, log, ChildOps(tx, name, d.retired[tx].children[name]), 0, d, log)
    ensures var files := d.retired[tx].children[name].files;
      SumBytes(FileSizes(files), Listing.Of(files.Keys)[..0]) == 0
  {
  }

  lemma ChildStep(d: Disk, tx: string, name: string, i: nat)
    requires HasTx(d, tx) && name in d.retired[tx].children && RetiredChildOk(d.retired[tx].children[name])
    requires i < |d.retired[tx].children[name].files.Keys|
    ensures var files := d.retired[tx].children[name].files;
      var names, ops := Listing.Of(files.Keys), ChildOps(tx, name, d.retired[tx].children[name]);
      && |ops| == |names| + 2 && ops[i] == DropFile(tx, name, names[i])
      && names[i] in files && files[names[i]].RegularFile?
      && SumBytes(FileSizes(files), names[..i + 1]) ==
           SumBytes(FileSizes(files), names[..i]) + files[names[i]].body.Size()
      && SumBytes(FileSizes(files), names[..i + 1]) <= FilesSize(files)
  {
    hide Listing.Of, SumBytes;
    var files := d.retired[tx].children[name].files;
    var names := Listing.Of(files.Keys);
    DropFileOpsAt(tx, name, names, i);
    SumBytesStep(FileSizes(files), names, i);
    assert names[i] in names;
    assert FileExpected(files, SNAPSHOT_FILES, names[i]);
  }

  lemma ApplyDropChild(d: Disk, tx: string, name: string)
    requires HasTx(d, tx)
    ensures Apply(d, DropChild(tx, name)) == WithoutChild(d, tx, name)
    ensures Apply(d, Sync(Child(tx, name))) == d
  {
  }

  lemma ChildEnd(d: Disk, tx: string, name: string)
    requires HasTx(d, tx) && name in d.retired[tx].children && d.retired[tx].children[name].SnapshotDir?
    ensures var node := d.retired[tx].children[name];
      var ops, k := ChildOps(tx, name, node), |node.files.Keys|;
      && |ops| == k + 2 && ops[k] == Sync(Child(tx, name)) && ops[k + 1] == DropChild(tx, name)
      && ApplyAll(d, ops) == WithoutChild(d, tx, name)
  {
    hide Listing.Of, ApplyAll, Apply, WithChild, WithoutChild;
    var node := d.retired[tx].children[name];
    var names := Listing.Of(node.files.Keys);
    var ops := ChildOps(tx, name, node);
    DropFileOpsAt(tx, name, names, 0);
    DropFilesEffect(d, tx, name, names);
    var a := DropFileOps(tx, name, names);
    ApplyAllOne(d, a, Sync(Child(tx, name)));
    ApplyAllOne(d, a + [Sync(Child(tx, name))], DropChild(tx, name));
    assert ops == a + [Sync(Child(tx, name))] + [DropChild(tx, name)];
    var left := SnapshotDir(node.files - Elements(names));
    WithChildTwice(d, tx, name, left, node);
    ApplyDropChild(WithChild(d, tx, name, left), tx, name);
  }

  /** What the sweep of some buckets removes. */
  function Gone(d: Disk, protected: set<string>, buckets: seq<string>): set<string> {
    GoneKeys(d.objects.Keys, protected, buckets)
  }

  function GoneKeys(keys: set<string>, protected: set<string>, buckets: seq<string>): set<string> {
    set h | h in keys && h !in protected && BucketName(h) in buckets
  }

  lemma MapMinus<K, V>(m: map<K, V>, a: set<K>, b: set<K>)
    ensures m - a - b == m - (a + b)
    ensures (m - a).Keys == m.Keys - a
  {
  }

  lemma MapTwice<K, V>(m: map<K, V>, k: K, u: V, v: V)
    ensures m[k := u][k := v] == m[k := v]
    ensures m[k := u] - {k} == m - {k}
    ensures k in m && m[k] == u ==> m[k := u] == m
  {
  }

  lemma GoneStep(keys: set<string>, protected: set<string>, done: seq<string>, bucket: string)
    requires bucket !in done
    ensures var gone := GoneKeys(keys, protected, done);
      && InBucket(keys - gone, bucket) == InBucket(keys, bucket)
      && GoneKeys(keys, protected, done + [bucket]) == gone + (InBucket(keys, bucket) - protected)
      && gone !! InBucket(keys, bucket)
  {
    hide BucketName;
  }

  lemma SweepStart(d: Disk, log: seq<Op>, protected: set<string>, buckets: seq<string>)
    ensures Progress(d, log, SweepOps(d.objects.Keys, protected, buckets), 0, d, log)
    ensures SweepOps(d.objects.Keys, protected, buckets[..0]) == SweepOps(d.objects.Keys, protected, buckets)[..0]
    ensures d == d.(objects := d.objects - Gone(d, protected, buckets[..0]))
    ensures |Gone(d, protected, buckets[..0])| == 0
    ensures BytesOf(ObjectSizes(d.objects), Gone(d, protected, buckets[..0])) == 0
  {
    assert Gone(d, protected, buckets[..0]) == {};
    assert d.objects - {} == d.objects;
  }

  lemma GoneAll(d: Disk, protected: set<string>)
    ensures Gone(d, protected, Listing.Of(Buckets(d.objects.Keys))) == d.objects.Keys - protected
  {
  }

  lemma SweepFits(d: Disk, protected: set<string>, buckets: seq<string>, i: nat)
    requires i < |buckets|
    ensures var gone := Gone(d, protected, buckets[..i]);
      && BytesOf(ObjectSizes(d.objects), gone) + BytesOf(ObjectSizes(d.objects - gone), (d.objects - gone).Keys)
         == BytesOf(ObjectSizes(d.objects), d.objects.Keys)
      && forall h :: h in d.objects - gone ==> (d.objects - gone)[h] == d.objects[h]
  {
    hide ObjectSizes, BytesOf;
    var gone := Gone(d, protected, buckets[..i]);
    assert (d.objects - gone).Keys == d.objects.Keys - gone;
    SizesAgree(d.objects, gone, d.objects.Keys - gone);
    BytesSplit(ObjectSizes(d.objects), gone, d.objects.Keys - gone);
    assert gone + (d.objects.Keys - gone) == d.objects.Keys;
  }

  /** One bucket more, seen from the start of the sweep: the operations. */
  lemma SweepAdvance(d0: Disk, log0: seq<Op>, protected: set<string>, buckets: seq<string>, i: nat, n: nat,
                     d1: Disk, log1: seq<Op>, m: nat, d: Disk, log: seq<Op>)
    requires i < |buckets| && buckets == Listing.Of(Buckets(d0.objects.Keys))
    requires d1 == d0.(objects := d0.objects - Gone(d0, protected, buckets[..i]))
    requires var ops := SweepOps(d0.objects.Keys, protected, buckets);
      Progress(d0, log0, ops, n, d1, log1) && n <= |ops|
        && ops[..n] == SweepOps(d0.objects.Keys, protected, buckets[..i])
    requires Progress(d1, log1, BucketOps(d1.objects.Keys, protected, buckets[i]), m, d, log)
    ensures var ops := SweepOps(d0.objects.Keys, protected, buckets);
      && Progress(d0, log0, ops, n + m, d, log) && n + m <= |ops|
      && (m == |BucketOps(d1.objects.Keys, protected, buckets[i])| ==>
            ops[..n + m] == SweepOps(d0.objects.Keys, protected, buckets[..i + 1]))
      && (m != |BucketOps(d1.objects.Keys, protected, buckets[i])| ==> n + m < |ops|)
  {
    hide ObjectSizes, BytesOf, Listing.Of, ApplyAll, Apply, Gone, InBucket;
    var ops := SweepOps(d0.objects.Keys, protected, buckets);
    SameBucket(d0, protected, buckets, i);
    var b := BucketOps(d0.objects.Keys, protected, buckets[i]);
    assert BucketOps(d1.objects.Keys, protected, buckets[i]) == b;
    SweepOpsPrefix(d0.objects.Keys, protected, buckets, i + 1);
    assert buckets[..i + 1][..i] == buckets[..i];
    ProgressInside(d0, log0, ops, n, b, d1, log1, m, d, log);
  }

  /** A phase `b` that occurs inside a longer run. */
  lemma ProgressInside(d0: Disk, log0: seq<Op>, ops: seq<Op>, n: nat, b: seq<Op>,
                       d1: Disk, log1: seq<Op>, m: nat, d: Disk, log: seq<Op>)
    requires n <= |ops| && ops[..n] + b <= ops
    requires Progress(d0, log0, ops, n, d1, log1) && Progress(d1, log1, b, m, d, log)
    ensures Progress(d0, log0, ops, n + m, d, log)
    ensures m == |b| ==> ops[..n + m] == ops[..n] + b
  {
    hide ApplyAll, Apply;
    assert ops == (ops[..n] + b) + ops[n + |b|..];
    assert Progress(d0, log0, ops[..n], n, d1, log1) by { assert ops[..n][..n] == ops[..n]; }
    ProgressJoin(d0, log0, ops[..n], b, m, d1, log1, d, log);
    ProgressWiden(d0, log0, ops[..n] + b, ops[n + |b|..], n + m, d, log);
  }

  /** One bucket more: the figures. */
  lemma SweepCounts(d0: Disk, protected: set<string>, buckets: seq<string>, i: nat)
    requires i < |buckets| && buckets == Listing.Of(Buckets(d0.objects.Keys))
    ensures var gone, gone' := Gone(d0, protected, buckets[..i]), Gone(d0, protected, buckets[..i + 1]);
      var left := d0.objects - gone;
      var doomed := InBucket(left.Keys, buckets[i]) - protected;
      && |gone'| == |gone| + |doomed|
      && BytesOf(ObjectSizes(d0.objects), gone') ==
           BytesOf(ObjectSizes(d0.objects), gone) + BytesOf(ObjectSizes(left), doomed)
      && left - doomed == d0.objects - gone'
  {
    hide ObjectSizes, BytesOf, Listing.Of, Gone, InBucket;
    SameBucket(d0, protected, buckets, i);
    var gone := Gone(d0, protected, buckets[..i]);
    var doomed := InBucket((d0.objects - gone).Keys, buckets[i]) - protected;
    BytesSplit(ObjectSizes(d0.objects), gone, doomed);
    SizesAgree(d0.objects, gone, doomed);
  }

  lemma SameBucket(d0: Disk, protected: set<string>, buckets: seq<string>, i: nat)
    requires i < |buckets| && buckets == Listing.Of(Buckets(d0.objects.Keys))
    ensures var gone := Gone(d0, protected, buckets[..i]);
      var keys, bucket := (d0.objects - gone).Keys, buckets[i];
      && InBucket(keys, bucket) == InBucket(d0.objects.Keys, bucket)
      && Gone(d0, protected, buckets[..i + 1]) == gone + (InBucket(keys, bucket) - protected)
      && gone !! InBucket(keys, bucket)
      && d0.objects - gone - (InBucket(keys, bucket) - protected) == d0.objects - Gone(d0, protected, buckets[..i + 1])
  {
    hide GoneKeys, InBucket, Listing.Of, Listing.Less, Buckets;
    Listing.OfAscending(Buckets(d0.objects.Keys));
    forall j | 0 <= j < i ensures buckets[j] != buckets[i] {
      Listing.LessTotal(buckets[j], buckets[i]);
    }
    var gone, bucket := Gone(d0, protected, buckets[..i]), buckets[i];
    assert buckets[..i + 1] == buckets[..i] + [bucket];
    MapMinus(d0.objects, gone, InBucket(d0.objects.Keys, bucket) - protected);
    GoneStep(d0.objects.Keys, protected, buckets[..i], bucket);
  }

  lemma BucketFits(d: Disk, bucket: string, protected: set<string>)
    ensures InBucket(d.objects.Keys, bucket) <= d.objects.Keys
    ensures BytesOf(ObjectSizes(d.objects), InBucket(d.objects.Keys, bucket) - protected)
         <= BytesOf(ObjectSizes(d.objects), d.objects.Keys)
  {
    BytesMonotone(ObjectSizes(d.objects), InBucket(d.objects.Keys, bucket) - protected, d.objects.Keys);
  }

  lemma WalkStart(d: Disk, log: seq<Op>, ops: seq<Op>, inside: set<string>, doomed: set<string>,
      sizes: map<string, nat>)
    ensures Progress(d, log, ops, 0, d, log)
    ensures Filter(Listing.Of(inside)[..0], doomed) == Listing.Of(doomed)[..0]
    ensures SumBytes(sizes, Listing.Of(doomed)[..0]) == 0
  {
    assert ops[..0] == [];
  }

  lemma WalkEnd(inside: set<string>, doomed: set<string>, n: nat)
    requires doomed <= inside && n <= |doomed|
    requires Filter(Listing.Of(inside), doomed) == Listing.Of(doomed)[..n]
    ensures n == |doomed| && Listing.Of(doomed)[..n] == Listing.Of(doomed)
  {
    FilterIsListing(inside, doomed);
    assert inside * doomed == doomed;
  }

  lemma BucketDone(d0: Disk, log0: seq<Op>, bucket: string, protected: set<string>, d: Disk, log: seq<Op>)
    requires Progress(d0, log0, BucketOps(d0.objects.Keys, protected, bucket),
      |BucketOps(d0.objects.Keys, protected, bucket)|, d, log)
    ensures d == d0.(objects := d0.objects - (InBucket(d0.objects.Keys, bucket) - protected))
  {
    hide InBucket, Apply, ApplyAll, Listing.Of, BucketOps;
    var hs, ops := Doomed(d0, bucket, protected), BucketOps(d0.objects.Keys, protected, bucket);
    UnlinkEffect(d0, hs);
    ProgressEnd(d0, log0, ops, d, log);
    BucketOpsIs(d0, bucket, protected);
    if hs != [] {
      ApplyAllOne(d0, UnlinkEach(hs), Sync(Bucket(bucket)));
      ApplySync(ApplyAll(d0, UnlinkEach(hs)), Bucket(bucket));
    }
  }

  lemma ApplySync(d: Disk, dir: Dir)
    ensures Apply(d, Sync(dir)) == d
  {
  }

  lemma BucketOpsIs(d: Disk, bucket: string, protected: set<string>)
    ensures var hs := Doomed(d, bucket, protected);
      && BucketOps(d.objects.Keys, protected, bucket) ==
        UnlinkEach(hs) + (if hs == [] then [] else [Sync(Bucket(bucket))])
      && Elements(hs) == InBucket(d.objects.Keys, bucket) - protected
      && (hs == [] ==> UnlinkEach(hs) + [] == UnlinkEach(hs))
  {
    hide InBucket;
  }

  function Doomed(d: Disk, bucket: string, protected: set<string>): seq<string> {
    Listing.Of(InBucket(d.objects.Keys, bucket) - protected)
  }

  /** After `n` unlinks in a bucket: the next operation, its effect so far, and its size. */
  lemma BucketStep(d: Disk, bucket: string, protected: set<string>, n: nat)
    requires n <= |InBucket(d.objects.Keys, bucket) - protected|
    ensures var hs := Listing.Of(InBucket(d.objects.Keys, bucket) - protected);
      var ops, sizes := BucketOps(d.objects.Keys, protected, bucket), ObjectSizes(d.objects);
      && |ops| == |hs| + (if hs == [] then 0 else 1)
      && ApplyAll(d, ops[..n]) == d.(objects := d.objects - Elements(hs[..n]))
      && (n < |hs| ==> ops[n] == Unlink(hs[n]) && hs[n] in d.objects)
      && (n < |hs| ==> SumBytes(sizes, hs[..n + 1]) == SumBytes(sizes, hs[..n]) + SizeOf(sizes, hs[n]))
      && (n < |hs| ==> SumBytes(sizes, hs[..n + 1]) <= BytesOf(sizes, InBucket(d.objects.Keys, bucket) - protected))
      && (n == |hs| && n > 0 ==> ops[n] == Sync(Bucket(bucket)))
  {
    hide Listing.Of, ObjectSizes, Apply, ApplyAll;
    var hs := Listing.Of(InBucket(d.objects.Keys, bucket) - protected);
    UnlinkEachAt(hs, n);
    UnlinkEffect(d, hs[..n]);
    assert BucketOps(d.objects.Keys, protected, bucket)[..n] == UnlinkEach(hs[..n]);
    if n < |hs| {
      assert hs[n] in hs;
      SumBytesStep(ObjectSizes(d.objects), hs, n);
    }
  }
}
