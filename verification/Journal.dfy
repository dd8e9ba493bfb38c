/** The file operations of a prune, what each does to the repository, and which of them a
    power loss may leave durable. */
module Journal {
  import opened Wrappers
  import opened Content
  import opened Repository

  const MARKER := "xdrive-prune-transaction-v1"

  datatype Dir =
    | RepoRoot | SnapshotRoot | RetiredRoot
    | TxDir(tx: string) | Child(tx: string, name: string) | Bucket(prefix: string) | ObjectRoot

  datatype Op =
    | MakeRoot
    | MakeTx(tx: string)
    | PutMarker(tx: string)
    | Retire(name: string, tx: string)
    | Unlink(hash: string)
    | DropFile(tx: string, name: string, file: string)
    | DropChild(tx: string, name: string)
    | DropMarker(tx: string)
    | DropTx(tx: string)
    | Sync(dir: Dir)

  function BucketName(hash: string): string {
    if |hash| < 2 then hash else hash[..2]
  }

  /** The directories whose entries an operation changes. */
  function Touches(op: Op): set<Dir> {
    match op
    case MakeRoot => {RepoRoot}
    case MakeTx(_) => {RetiredRoot}
    case PutMarker(tx) => {TxDir(tx)}
    case Retire(_, tx) => {SnapshotRoot, TxDir(tx)}
    case Unlink(hash) => {Bucket(BucketName(hash))}
    case DropFile(tx, name, _) => {Child(tx, name)}
    case DropChild(tx, _) => {TxDir(tx)}
    case DropMarker(tx) => {TxDir(tx)}
    case DropTx(_) => {RetiredRoot}
    case Sync(_) => {}
  }

  predicate HasTx(d: Disk, tx: string) {
    tx in d.retired && d.retired[tx].Transaction?
  }

  function ChildrenOf(d: Disk, tx: string): map<string, SnapshotNode> {
    if HasTx(d, tx) then d.retired[tx].children else map[]
  }

  /** The effect of one operation. A directory entry that is not there is left alone, and a
      snapshot renamed under a transaction that is not there is no longer reachable. */
  function Apply(d: Disk, op: Op): Disk {
    match op
    case MakeRoot => d.(hasRetiredRoot := true)
    case MakeTx(tx) =>
      if d.hasRetiredRoot && tx !in d.retired then d.(retired := d.retired[tx := Transaction(None, map[])]) else d
    case PutMarker(tx) =>
      if HasTx(d, tx)
      then d.(retired := d.retired[tx := d.retired[tx].(marker := Some(RegularFile(Lines(MARKER))))])
      else d
    case Retire(name, tx) =>
      if name !in d.snapshots then d
      else if HasTx(d, tx)
      then d.(snapshots := d.snapshots - {name},
              retired := d.retired[tx := d.retired[tx].(children := d.retired[tx].children[name := d.snapshots[name]])])
      else d.(snapshots := d.snapshots - {name})
    case Unlink(hash) => d.(objects := d.objects - {hash})
    case DropFile(tx, name, file) =>
      if HasTx(d, tx) && name in d.retired[tx].children && d.retired[tx].children[name].SnapshotDir?
      then var files := d.retired[tx].children[name].files - {file};
           d.(retired :=
             d.retired[tx := d.retired[tx].(children := d.retired[tx].children[name := SnapshotDir(files)])])
      else d
    case DropChild(tx, name) =>
      if HasTx(d, tx)
      then d.(retired := d.retired[tx := d.retired[tx].(children := d.retired[tx].children - {name})])
      else d
    case DropMarker(tx) =>
      if HasTx(d, tx) then d.(retired := d.retired[tx := d.retired[tx].(marker := None)]) else d
    case DropTx(tx) => d.(retired := d.retired - {tx})
    case Sync(_) => d
  }

  function ApplyAll(d: Disk, ops: seq<Op>): Disk {
    if ops == [] then d else Apply(ApplyAll(d, ops[..|ops| - 1]), ops[|ops| - 1])
  }

  /** What a restart finds after the operations in `s` reached the disk and the others did not. */
  function Image(d: Disk, ops: seq<Op>, s: set<nat>): Disk {
    if ops == [] then d
    else
      var k := |ops| - 1;
      if k in s then Apply(Image(d, ops[..k], s), ops[k]) else Image(d, ops[..k], s)
  }

  /** The cuts a power loss can make after the operations `ops` were issued: within each
      directory changes reach the disk in the order they were issued, a rename counts for both
      its directories, and whatever a completed sync covers has reached the disk. */
  ghost predicate Durable(ops: seq<Op>, s: set<nat>) {
    && (forall i :: i in s ==> i < |ops|)
    && (forall i, j :: 0 <= i < j < |ops| && j in s && !(Touches(ops[i]) !! Touches(ops[j])) ==> i in s)
    && (forall i, j :: 0 <= i < j < |ops| && ops[j].Sync? && ops[j].dir in Touches(ops[i]) ==> i in s)
  }

  /** The cut in which every one of the first `n` operations reached the disk. */
  function All(n: nat): (s: set<nat>)
    ensures forall i: nat :: i in s <==> i < n
  {
    if n == 0 then {} else All(n - 1) + {n - 1}
  }

  /** Losing nothing is one of the cuts. */
  lemma EverythingDurable(ops: seq<Op>)
    ensures Durable(ops, All(|ops|))
  {
  }

  lemma {:induction false} ApplyAllConcat(d: Disk, a: seq<Op>, b: seq<Op>)
    ensures ApplyAll(d, a + b) == ApplyAll(ApplyAll(d, a), b)
  {
    if b == [] {
      assert a + b == a;
    } else {
      var k := |b| - 1;
      ApplyAllConcat(d, a, b[..k]);
      assert (a + b)[..|a + b| - 1] == a + b[..k];
    }
  }

  lemma ApplyAllOne(d: Disk, a: seq<Op>, op: Op)
    ensures ApplyAll(d, a + [op]) == Apply(ApplyAll(d, a), op)
  {
    assert (a + [op])[..|a|] == a;
  }

  /** Nothing lost: the image with every operation durable is the live repository. */
  lemma {:induction false} ImageAll(d: Disk, ops: seq<Op>, s: set<nat>)
    requires forall i: nat :: i < |ops| ==> i in s
    ensures Image(d, ops, s) == ApplyAll(d, ops)
  {
    if ops != [] { ImageAll(d, ops[..|ops| - 1], s); }
  }

  // ----- what images keep, one part of the repository at a time -----

  ghost predicate Retired(ops: seq<Op>, s: set<nat>, name: string) {
    exists i :: i in s && i < |ops| && ops[i].Retire? && ops[i].name == name
  }

  ghost predicate Unlinked(ops: seq<Op>, s: set<nat>, hash: string) {
    exists i :: i in s && i < |ops| && ops[i] == Unlink(hash)
  }

  lemma RetiredStep(ops: seq<Op>, s: set<nat>, name: string)
    requires ops != []
    ensures var k := |ops| - 1;
      Retired(ops, s, name) <==> Retired(ops[..k], s, name) || (k in s && ops[k].Retire? && ops[k].name == name)
  {
    var k := |ops| - 1;
    if Retired(ops, s, name) {
      var i :| i in s && i < |ops| && ops[i].Retire? && ops[i].name == name;
      if i < k { assert ops[..k][i] == ops[i]; }
    }
    if Retired(ops[..k], s, name) {
      var i :| i in s && i < k && ops[..k][i].Retire? && ops[..k][i].name == name;
      assert ops[i].Retire? && ops[i].name == name;
    }
  }

  lemma {:induction false} ImageSnapshots(d: Disk, ops: seq<Op>, s: set<nat>)
    ensures forall n :: n in Image(d, ops, s).snapshots <==> n in d.snapshots && !Retired(ops, s, n)
    ensures forall n :: n in Image(d, ops, s).snapshots ==> Image(d, ops, s).snapshots[n] == d.snapshots[n]
  {
    hide Retired;
    if ops == [] {
      forall n ensures !Retired([], s, n) { NothingRetired(s, n); }
    } else {
      ImageSnapshots(d, ops[..|ops| - 1], s);
      forall n ensures Retired(ops, s, n) <==>
          (Retired(ops[..|ops| - 1], s, n) || (|ops| - 1 in s && ops[|ops| - 1].Retire? && ops[|ops| - 1].name == n)) {
        RetiredStep(ops, s, n);
      }
    }
  }

  lemma NothingRetired(s: set<nat>, name: string)
    ensures !Retired([], s, name) && !Unlinked([], s, name)
  {
  }

  lemma UnlinkedStep(ops: seq<Op>, s: set<nat>, hash: string)
    requires ops != []
    ensures var k := |ops| - 1;
      Unlinked(ops, s, hash) <==> Unlinked(ops[..k], s, hash) || (k in s && ops[k] == Unlink(hash))
  {
    var k := |ops| - 1;
    if Unlinked(ops, s, hash) {
      var i :| i in s && i < |ops| && ops[i] == Unlink(hash);
      if i < k { assert ops[..k][i] == ops[i]; }
    }
    if Unlinked(ops[..k], s, hash) {
      var i :| i in s && i < k && ops[..k][i] == Unlink(hash);
      assert ops[i] == Unlink(hash);
    }
  }

  lemma {:induction false} ImageObjects(d: Disk, ops: seq<Op>, s: set<nat>)
    ensures forall h :: h in Image(d, ops, s).objects <==> h in d.objects && !Unlinked(ops, s, h)
    ensures forall h :: h in Image(d, ops, s).objects ==> Image(d, ops, s).objects[h] == d.objects[h]
  {
    hide Unlinked;
    if ops == [] {
      forall h ensures !Unlinked([], s, h) { NothingRetired(s, h); }
    } else {
      ImageObjects(d, ops[..|ops| - 1], s);
      forall h ensures Unlinked(ops, s, h) <==>
          (Unlinked(ops[..|ops| - 1], s, h) || (|ops| - 1 in s && ops[|ops| - 1] == Unlink(h))) {
        UnlinkedStep(ops, s, h);
      }
    }
  }
}
