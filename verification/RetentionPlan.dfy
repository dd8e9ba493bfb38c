/** The retention plan: which snapshots a keep-last policy would drop, and the bytes that
    deleting them would free. Read-only. */
module RetentionPlan {
  import opened Wrappers
  import opened Content
  import opened SnapshotNames
  import opened Repository
  import opened Sums
  import Listing
  import ObjectIndex

  type Row = ObjectIndex.Row

  datatype Plan = Plan(
    committedSnapshots: nat, keep: seq<string>, drop: seq<string>,
    retainedObjects: nat, dropOnlyObjects: nat, unreferencedObjects: nat,
    dropOnlyObjectBytes: int, unreferencedBytes: int, dropSnapshotBytes: int,
    potentialLogicalBytes: int, hashedObjects: nat, hashedBytes: int)

  // ----- what a repository must satisfy -----

  function IndexOf(node: SnapshotNode): ObjectIndex.Reading {
    if node.SnapshotDir? && "objects.index" in node.files && node.files["objects.index"].RegularFile? &&
       node.files["objects.index"].body.Lines?
    then ObjectIndex.Read(node.files["objects.index"].body.text)
    else ObjectIndex.Reading([], false)
  }

  function RowsOf(d: Disk, name: string): seq<Row> {
    if name in d.snapshots then IndexOf(d.snapshots[name]).rows else []
  }

  function HashesOf(rows: seq<Row>): set<string> {
    set i | 0 <= i < |rows| :: rows[i].hash
  }

  /** The hashes that the indexes of some snapshots mention. */
  function Referenced(d: Disk, names: set<string>): set<string> {
    set n, h | n in names && h in HashesOf(RowsOf(d, n)) :: h
  }

  function ObjectSizes(objects: map<string, ObjectNode>): map<string, nat> {
    map h | h in objects :: if objects[h].ObjectFile? then |objects[h].data| else 0
  }

  function SnapshotSizes(d: Disk): map<string, nat> {
    map n | n in d.snapshots :: if d.snapshots[n].SnapshotDir? then FilesSize(d.snapshots[n].files) else 0
  }

  function SnapshotListing(d: Disk): seq<string> {
    Listing.Of(d.snapshots.Keys)
  }

  function DropCount(d: Disk, keepLast: int): nat {
    var n := |SnapshotListing(d)| - keepLast;
    if n < 0 || keepLast < 0 then 0 else n
  }

  function KeepNames(d: Disk, keepLast: int): seq<string> {
    SnapshotListing(d)[DropCount(d, keepLast)..]
  }

  function DropNames(d: Disk, keepLast: int): seq<string> {
    SnapshotListing(d)[..DropCount(d, keepLast)]
  }

  function Elements(s: seq<string>): set<string> {
    set x | x in s
  }

  function RetainedHashes(d: Disk, keepLast: int): set<string> {
    Referenced(d, Elements(KeepNames(d, keepLast)))
  }

  function DropOnlyHashes(d: Disk, keepLast: int): set<string> {
    d.objects.Keys * (Referenced(d, d.snapshots.Keys) - RetainedHashes(d, keepLast))
  }

  function UnreferencedHashes(d: Disk): set<string> {
    d.objects.Keys - Referenced(d, d.snapshots.Keys)
  }

  ghost predicate SnapshotOk(d: Disk, n: string) {
    n in d.snapshots && Canonical(n) && Committed(d.snapshots[n]) && IndexOf(d.snapshots[n]).ok
  }

  ghost predicate SnapshotsOk(d: Disk) {
    forall n :: n in d.snapshots ==> SnapshotOk(d, n)
  }

  predicate ObjectOk(d: Disk, h: string, deep: bool) {
    h in d.objects && ShaValid(h) && d.objects[h].ObjectFile? && (deep ==> ObjectName(d.objects[h].data) == h)
  }

  ghost predicate ObjectsOk(d: Disk, deep: bool) {
    forall h :: h in d.objects ==> ObjectOk(d, h, deep)
  }

  predicate RowOk(d: Disk, row: Row) {
    row.hash in d.objects && d.objects[row.hash].ObjectFile? && |d.objects[row.hash].data| == row.size
  }

  /** Every row of a snapshot's index has its object, of the recorded size. */
  ghost predicate RowsOk(d: Disk, name: string) {
    forall i :: 0 <= i < |RowsOf(d, name)| ==> RowOk(d, RowsOf(d, name)[i])
  }

  ghost predicate ReferencesOk(d: Disk) {
    forall n :: n in d.snapshots ==> RowsOk(d, n)
  }

  /** What the audit of the object store counts. */
  datatype Audit = Audit(
    retained: nat, dropOnly: nat, unreferenced: nat, dropOnlyBytes: int, unreferencedBytes: int,
    hashed: nat, hashedBytes: int)

  /** The figures of the whole store, by set membership alone. */
  function AuditFigures(d: Disk, keepLast: int, deep: bool): Audit {
    var sizes := ObjectSizes(d.objects);
    Audit(|d.objects.Keys * RetainedHashes(d, keepLast)|, |DropOnlyHashes(d, keepLast)|, |UnreferencedHashes(d)|,
      BytesOf(sizes, DropOnlyHashes(d, keepLast)), BytesOf(sizes, UnreferencedHashes(d)),
      if deep then |d.objects.Keys| else 0, if deep then BytesOf(sizes, d.objects.Keys) else 0)
  }

  function DropSnapshotBytes(d: Disk, keepLast: int): nat {
    SumBytes(SnapshotSizes(d), DropNames(d, keepLast))
  }

  /** Counters are non-negative 64-bit integers. */
  ghost predicate AuditFits(a: Audit) {
    0 <= a.dropOnlyBytes <= MAX_INT64 && 0 <= a.unreferencedBytes <= MAX_INT64 && 0 <= a.hashedBytes <= MAX_INT64
  }

  ghost predicate TotalsOk(d: Disk, keepLast: int, deep: bool) {
    var a := AuditFigures(d, keepLast, deep);
    AuditFits(a) && DropSnapshotBytes(d, keepLast) + a.dropOnlyBytes + a.unreferencedBytes <= MAX_INT64
  }

  ghost predicate PlanOk(d: Disk, keepLast: int, deep: bool) {
    keepLast >= 1 && SnapshotsOk(d) && ObjectsOk(d, deep) && ReferencesOk(d) && TotalsOk(d, keepLast, deep)
  }

  function PlanOf(d: Disk, keepLast: int, deep: bool): Plan {
    var a, dropped := AuditFigures(d, keepLast, deep), DropSnapshotBytes(d, keepLast);
    Plan(|d.snapshots.Keys|, KeepNames(d, keepLast), DropNames(d, keepLast), a.retained, a.dropOnly, a.unreferenced,
      a.dropOnlyBytes, a.unreferencedBytes, dropped, dropped + a.dropOnlyBytes + a.unreferencedBytes,
      a.hashed, a.hashedBytes)
  }

  // ----- the same, in plain terms -----

  /** A stored object carries the name of its content, as far as it was read. */
  ghost predicate ObjectInOrder(h: string, node: ObjectNode, deep: bool) {
    ShaValid(h) && node.ObjectFile? && (deep ==> Sha256(Raw(node.data)) == h)
  }

  /** A snapshot has a canonical name, its published files, and an index that can be read. */
  ghost predicate SnapshotInOrder(n: string, node: SnapshotNode) {
    && Canonical(n) && Committed(node)
    && node.files["objects.index"].body.Lines? && ObjectIndex.Read(node.files["objects.index"].body.text).ok
  }

  /** The rows of a snapshot's index; none, where there is no index to read. */
  ghost predicate HasRow(d: Disk, n: string, row: Row) {
    && n in d.snapshots && d.snapshots[n].SnapshotDir? && "objects.index" in d.snapshots[n].files
    && d.snapshots[n].files["objects.index"].RegularFile? && d.snapshots[n].files["objects.index"].body.Lines?
    && row in ObjectIndex.Read(d.snapshots[n].files["objects.index"].body.text).rows
  }

  lemma HasRowIs(d: Disk, n: string, row: Row)
    ensures HasRow(d, n, row) <==> row in RowsOf(d, n)
  {
    hide ObjectIndex.Read;
  }

  lemma SnapshotInOrderIs(d: Disk, n: string)
    requires n in d.snapshots
    ensures SnapshotOk(d, n) <==> SnapshotInOrder(n, d.snapshots[n])
  {
    hide Canonical, ObjectIndex.Read, FilesSize, ChecksumLines, Manifest.ManifestOk;
    if Committed(d.snapshots[n]) { CommittedMeaning(d.snapshots[n]); }
  }

  /** What a plan demands: every snapshot and every object in order, every row's object there with
      the recorded size, and counters below 2^63. */
  lemma PlanDemands(d: Disk, keepLast: int, deep: bool)
    ensures PlanOk(d, keepLast, deep) <==>
      && keepLast >= 1
      && (forall n :: n in d.snapshots ==> SnapshotInOrder(n, d.snapshots[n]))
      && (forall h :: h in d.objects ==> ObjectInOrder(h, d.objects[h], deep))
      && (forall n, row :: HasRow(d, n, row) ==>
            row.hash in d.objects && d.objects[row.hash].ObjectFile? && |d.objects[row.hash].data| == row.size)
      && (deep ==> BytesOf(ObjectSizes(d.objects), d.objects.Keys) <= 0x7fff_ffff_ffff_ffff)
      && DropSnapshotBytes(d, keepLast) + BytesOf(ObjectSizes(d.objects), DropOnlyHashes(d, keepLast))
           + BytesOf(ObjectSizes(d.objects), UnreferencedHashes(d)) <= 0x7fff_ffff_ffff_ffff
  {
    hide SnapshotInOrder, SnapshotsOk, ObjectsOk, ReferencesOk, TotalsOk, HasRow, ObjectInOrder, ObjectSizes, BytesOf,
      DropOnlyHashes, UnreferencedHashes, DropSnapshotBytes;
    SnapshotsDemanded(d);
    ObjectsDemanded(d, deep);
    RowsDemanded(d);
    TotalsDemanded(d, keepLast, deep);
  }

  lemma SnapshotsDemanded(d: Disk)
    ensures SnapshotsOk(d) <==> forall n :: n in d.snapshots ==> SnapshotInOrder(n, d.snapshots[n])
  {
    hide SnapshotOk, SnapshotInOrder;
    forall n | n in d.snapshots ensures SnapshotOk(d, n) <==> SnapshotInOrder(n, d.snapshots[n]) {
      SnapshotInOrderIs(d, n);
    }
  }

  lemma ObjectsDemanded(d: Disk, deep: bool)
    ensures ObjectsOk(d, deep) <==> forall h :: h in d.objects ==> ObjectInOrder(h, d.objects[h], deep)
  {
    hide ShaValid;
    forall h | h in d.objects ensures ObjectOk(d, h, deep) <==> ObjectInOrder(h, d.objects[h], deep) {}
  }

  lemma TotalsDemanded(d: Disk, keepLast: int, deep: bool)
    ensures TotalsOk(d, keepLast, deep) <==>
      && (deep ==> BytesOf(ObjectSizes(d.objects), d.objects.Keys) <= 0x7fff_ffff_ffff_ffff)
      && DropSnapshotBytes(d, keepLast) + BytesOf(ObjectSizes(d.objects), DropOnlyHashes(d, keepLast))
           + BytesOf(ObjectSizes(d.objects), UnreferencedHashes(d)) <= 0x7fff_ffff_ffff_ffff
  {
    hide ObjectSizes, DropOnlyHashes, UnreferencedHashes, RetainedHashes, BytesOf, DropSnapshotBytes;
  }

  lemma RowsDemanded(d: Disk)
    ensures ReferencesOk(d) <==> forall n, row :: HasRow(d, n, row) ==>
      row.hash in d.objects && d.objects[row.hash].ObjectFile? && |d.objects[row.hash].data| == row.size
  {
    hide RowsOf, HasRow;
    forall n, row ensures HasRow(d, n, row) <==> row in RowsOf(d, n) { HasRowIs(d, n, row); }
    if forall n, row :: HasRow(d, n, row) ==>
      row.hash in d.objects && d.objects[row.hash].ObjectFile? && |d.objects[row.hash].data| == row.size
    {
      forall n, i | n in d.snapshots && 0 <= i < |RowsOf(d, n)| ensures RowOk(d, RowsOf(d, n)[i]) {
        assert HasRow(d, n, RowsOf(d, n)[i]);
      }
    }
    if ReferencesOk(d) {
      forall n, row | HasRow(d, n, row) ensures RowOk(d, row) {
        NamedThere(d, n, row);
        var i :| 0 <= i < |RowsOf(d, n)| && RowsOf(d, n)[i] == row;
        assert RowsOk(d, n);
      }
    }
  }

  lemma NamedThere(d: Disk, n: string, row: Row)
    requires HasRow(d, n, row)
    ensures n in d.snapshots
  {
    hide ObjectIndex.Read;
  }

  // ----- the loops -----

  ghost predicate Agrees(table: map<string, nat>, rows: seq<Row>) {
    forall i :: 0 <= i < |rows| ==> rows[i].hash in table && table[rows[i].hash] == rows[i].size
  }

  /** The table of all sizes holds exactly the rows entered so far. */
  ghost predicate TableOf(d: Disk, names: set<string>, table: map<string, nat>) {
    table.Keys == Referenced(d, names) && forall n :: n in names ==> Agrees(table, RowsOf(d, n))
  }

  predicate Clashes(table: map<string, nat>, row: Row) {
    row.hash in table && table[row.hash] != row.size
  }

  /** The rows of one index are entered into the table of all sizes; a hash that was
      recorded with another size is an error. */
  method EnterRows(rows: seq<Row>, all: map<string, nat>) returns (r: Option<map<string, nat>>)
    requires ObjectIndex.Distinct(rows)
    ensures r.Some? ==> r.value.Keys == all.Keys + HashesOf(rows) && Agrees(r.value, rows)
    ensures r.Some? ==> forall h :: h in all ==> r.value[h] == all[h]
    ensures r == None ==> exists i :: 0 <= i < |rows| && Clashes(all, rows[i])
  {
    var table := all;
    for i := 0 to |rows|
      invariant table.Keys == all.Keys + HashesOf(rows[..i])
      invariant forall h :: h in all ==> table[h] == all[h]
      invariant Agrees(table, rows[..i])
    {
      var row := rows[i];
      assert rows[..i + 1] == rows[..i] + [row];
      assert HashesOf(rows[..i + 1]) == HashesOf(rows[..i]) + {row.hash};
      if row.hash in table && table[row.hash] != row.size {
        assert Clashes(all, row);
        return None;
      }
      table := table[row.hash := row.size];
    }
    assert rows[..|rows|] == rows;
    r := Some(table);
  }

  lemma RowsDistinct(d: Disk, name: string)
    ensures ObjectIndex.Distinct(RowsOf(d, name))
  {
    if name in d.snapshots {
      var node := d.snapshots[name];
      if node.SnapshotDir? && "objects.index" in node.files && node.files["objects.index"].RegularFile? &&
         node.files["objects.index"].body.Lines? {
        ObjectIndex.ReadLinesDistinct(ObjectIndex.SplitLines(node.files["objects.index"].body.text), {});
      }
    }
  }

  lemma RowsAgree(d: Disk, m: string, j: int, n: string, i: int)
    requires ReferencesOk(d) && m in d.snapshots && n in d.snapshots
    requires 0 <= i < |RowsOf(d, n)| && 0 <= j < |RowsOf(d, m)| && RowsOf(d, m)[j].hash == RowsOf(d, n)[i].hash
    ensures RowsOf(d, m)[j].size == RowsOf(d, n)[i].size
  {
    assert RowsOk(d, n) && RowsOk(d, m);
    assert RowOk(d, RowsOf(d, m)[j]) && RowOk(d, RowsOf(d, n)[i]);
  }

  lemma ClashRefutes(d: Disk, names: set<string>, name: string, table: map<string, nat>, i: int)
    requires TableOf(d, names, table) && names <= d.snapshots.Keys && name in d.snapshots
    requires 0 <= i < |RowsOf(d, name)| && Clashes(table, RowsOf(d, name)[i])
    ensures !ReferencesOk(d)
  {
    hide RowsOf, RowsOk, ReferencesOk;
    var h := RowsOf(d, name)[i].hash;
    var n :| n in names && h in HashesOf(RowsOf(d, n));
    var rows := RowsOf(d, n);
    var j :| 0 <= j < |rows| && rows[j].hash == h;
    assert Agrees(table, rows);
    if ReferencesOk(d) { RowsAgree(d, n, j, name, i); }
  }

  lemma TableGrows(d: Disk, names: set<string>, name: string, table: map<string, nat>, table': map<string, nat>)
    requires TableOf(d, names, table)
    requires table'.Keys == table.Keys + HashesOf(RowsOf(d, name)) && Agrees(table', RowsOf(d, name))
    requires forall h :: h in table ==> table'[h] == table[h]
    ensures TableOf(d, names + {name}, table')
  {
    hide RowsOf;
    forall n | n in names ensures Agrees(table', RowsOf(d, n)) {
      assert Agrees(table, RowsOf(d, n));
    }
  }

  /** The running results after some snapshots were surveyed. */
  datatype Survey = Survey(all: map<string, nat>, retained: set<string>, dropBytes: int)

  function Kept(done: seq<string>, dropCount: nat): seq<string> {
    if |done| < dropCount then [] else done[dropCount..]
  }

  function Dropped(done: seq<string>, dropCount: nat): seq<string> {
    if |done| < dropCount then done else done[..dropCount]
  }

  ghost predicate Surveyed(d: Disk, done: seq<string>, dropCount: nat, s: Survey) {
    && TableOf(d, Elements(done), s.all)
    && s.retained == Referenced(d, Elements(Kept(done, dropCount)))
    && s.dropBytes == SumBytes(SnapshotSizes(d), Dropped(done, dropCount)) <= MAX_INT64
  }

  lemma ReferencedGrows(d: Disk, names: set<string>, name: string)
    ensures Referenced(d, names + {name}) == Referenced(d, names) + HashesOf(RowsOf(d, name))
  {
    hide RowsOf, HashesOf;
  }

  /** The checks on one snapshot alone. */
  method SurveyOne(d: Disk, name: string) returns (r: Option<(int, seq<Row>)>)
    requires name in d.snapshots
    ensures r.Some? <==> SnapshotOk(d, name)
    ensures r.Some? ==> r.value == (SizeOf(SnapshotSizes(d), name), RowsOf(d, name))
  {
    if !Canonical(name) {
      return None;
    }
    var size := ValidateCommittedSnapshot(d.snapshots[name]);
    if size == None || !IndexOf(d.snapshots[name]).ok {
      return None;
    }
    r := Some((size.value, RowsOf(d, name)));
  }

  lemma SurveyedStep(d: Disk, done: seq<string>, name: string, dropCount: nat, s: Survey, s': Survey)
    requires Surveyed(d, done, dropCount, s)
    requires s'.all.Keys == s.all.Keys + HashesOf(RowsOf(d, name)) && Agrees(s'.all, RowsOf(d, name))
    requires forall h :: h in s.all ==> s'.all[h] == s.all[h]
    requires s'.retained == if |done| < dropCount then s.retained else s.retained + HashesOf(RowsOf(d, name))
    requires s'.dropBytes == if |done| < dropCount then s.dropBytes + SizeOf(SnapshotSizes(d), name) else s.dropBytes
    requires s'.dropBytes <= MAX_INT64
    ensures Surveyed(d, done + [name], dropCount, s')
  {
    hide RowsOf, SnapshotOk, SnapshotSizes, SizeOf, Referenced;
    assert Elements(done + [name]) == Elements(done) + {name};
    TableGrows(d, Elements(done), name, s.all, s'.all);
    KeptGrows(d, done, name, dropCount);
    DroppedGrows(d, done, name, dropCount);
  }

  lemma DroppedGrows(d: Disk, done: seq<string>, name: string, dropCount: nat)
    ensures SumBytes(SnapshotSizes(d), Dropped(done + [name], dropCount)) ==
      SumBytes(SnapshotSizes(d), Dropped(done, dropCount)) +
      if |done| < dropCount then SizeOf(SnapshotSizes(d), name) else 0
  {
    hide SnapshotSizes, SizeOf;
    if |done| < dropCount {
      assert Dropped(done + [name], dropCount) == Dropped(done, dropCount) + [name];
      SumBytesAppend(SnapshotSizes(d), Dropped(done, dropCount), name);
    } else {
      assert Dropped(done + [name], dropCount) == Dropped(done, dropCount);
    }
  }

  lemma KeptGrows(d: Disk, done: seq<string>, name: string, dropCount: nat)
    ensures Referenced(d, Elements(Kept(done + [name], dropCount))) ==
      if |done| < dropCount then Referenced(d, Elements(Kept(done, dropCount)))
      else Referenced(d, Elements(Kept(done, dropCount))) + HashesOf(RowsOf(d, name))
  {
    if |done| >= dropCount {
      var k := Kept(done, dropCount);
      assert Kept(done + [name], dropCount) == k + [name];
      assert Elements(k + [name]) == Elements(k) + {name};
      ReferencedGrows(d, Elements(k), name);
    } else {
      assert Elements(Kept(done + [name], dropCount)) == {};
    }
  }

  lemma SumBytesAppend(sizes: map<string, nat>, names: seq<string>, name: string)
    ensures SumBytes(sizes, names + [name]) == SumBytes(sizes, names) + SizeOf(sizes, name)
  {
    assert (names + [name])[..|names|] == names;
  }

  /** Why a survey may give up. */
  ghost predicate Unplannable(d: Disk, names: seq<string>, dropCount: nat) {
    dropCount <= |names| ==>
      !SnapshotsOk(d) || !ReferencesOk(d) || SumBytes(SnapshotSizes(d), names[..dropCount]) > MAX_INT64
  }

  lemma BadSnapshotFound(d: Disk, names: seq<string>, dropCount: nat, name: string)
    requires name in d.snapshots && !SnapshotOk(d, name)
    ensures Unplannable(d, names, dropCount)
  {
    hide SnapshotOk, ReferencesOk;
  }

  lemma ClashFound(d: Disk, names: seq<string>, dropCount: nat, i: nat, table: map<string, nat>)
    requires names == SnapshotListing(d) && i < |names| && TableOf(d, Elements(names[..i]), table)
    requires exists k :: 0 <= k < |RowsOf(d, names[i])| && Clashes(table, RowsOf(d, names[i])[k])
    ensures Unplannable(d, names, dropCount)
  {
    hide RowsOf, TableOf, ReferencesOk, SnapshotsOk, SnapshotSizes;
    var k :| 0 <= k < |RowsOf(d, names[i])| && Clashes(table, RowsOf(d, names[i])[k]);
    assert names[i] in names;
    assert Elements(names[..i]) <= d.snapshots.Keys;
    ClashRefutes(d, Elements(names[..i]), names[i], table, k);
  }

  lemma OverflowFound(d: Disk, names: seq<string>, i: nat, dropCount: nat)
    requires i < dropCount <= |names|
    requires SumBytes(SnapshotSizes(d), Dropped(names[..i], dropCount)) + SizeOf(SnapshotSizes(d), names[i]) > MAX_INT64
    ensures Unplannable(d, names, dropCount)
  {
    hide SnapshotSizes, SizeOf, SnapshotsOk, ReferencesOk;
    assert Dropped(names[..i], dropCount) == names[..dropCount][..i];
    SumBytesStep(SnapshotSizes(d), names[..dropCount], i);
  }

  method SurveyStep(d: Disk, names: seq<string>, i: nat, dropCount: nat, s: Survey) returns (r: Option<Survey>)
    requires names == SnapshotListing(d) && i < |names| && dropCount <= |names|
    requires Surveyed(d, names[..i], dropCount, s)
    ensures r.Some? ==> Surveyed(d, names[..i] + [names[i]], dropCount, r.value) && SnapshotOk(d, names[i])
    ensures r == None ==> Unplannable(d, names, dropCount)
  {
    hide RowsOf, SnapshotOk, SnapshotSizes, SizeOf, Referenced, Unplannable, TableOf, SumBytes, HashesOf;
    var name := names[i];
    assert name in names;
    var one := SurveyOne(d, name);
    if one == None {
      BadSnapshotFound(d, names, dropCount, name);
      return None;
    }
    var (size, rows) := one.value;
    var bytes := if i < dropCount then AddBytes(s.dropBytes, size) else Some(s.dropBytes);
    if bytes == None {
      OverflowFound(d, names, i, dropCount);
      return None;
    }
    RowsDistinct(d, name);
    var entered := EnterRows(rows, s.all);
    if entered == None {
      ClashFound(d, names, dropCount, i, s.all);
      return None;
    }
    r := Some(Survey(entered.value, if i < dropCount then s.retained else s.retained + HashesOf(rows), bytes.value));
    SurveyedStep(d, names[..i], name, dropCount, s, r.value);
  }

  /** The first pass: names, snapshot metadata, indexes, and the bytes of dropped snapshots. */
  method SurveySnapshots(d: Disk, names: seq<string>, dropCount: nat) returns (r: Option<Survey>)
    requires names == SnapshotListing(d) && dropCount <= |names|
    ensures r.Some? ==> SnapshotsOk(d) && Surveyed(d, names, dropCount, r.value)
    ensures r == None ==> Unplannable(d, names, dropCount)
  {
    hide SnapshotOk, Surveyed, Unplannable;
    var s := Survey(map[], {}, 0);
    SurveyedNothing(d, dropCount, s);
    for i := 0 to |names|
      invariant Surveyed(d, names[..i], dropCount, s)
      invariant forall j :: 0 <= j < i ==> SnapshotOk(d, names[j])
    {
      var next := SurveyStep(d, names, i, dropCount, s);
      if next == None {
        return None;
      }
      assert names[..i + 1] == names[..i] + [names[i]];
      s := next.value;
    }
    assert names[..|names|] == names;
    r := Some(s);
    forall n | n in d.snapshots ensures SnapshotOk(d, n) {
      assert n in names;
    }
  }

  lemma SurveyedNothing(d: Disk, dropCount: nat, s: Survey)
    requires s == Survey(map[], {}, 0)
    ensures Surveyed(d, [], dropCount, s)
  {
    assert Kept([], dropCount) == [] && Dropped([], dropCount) == [];
  }

  // ----- the object store -----

  /** The figures after a prefix of the store's listing. */
  function AuditOf(sizes: map<string, nat>, done: seq<string>, all: set<string>, retained: set<string>,
      deep: bool): Audit {
    Audit(
      |Filter(done, all * retained)|, |Filter(done, all - retained)|, |Filter(done, sizes.Keys - all)|,
      SumBytes(sizes, Filter(done, all - retained)), SumBytes(sizes, Filter(done, sizes.Keys - all)),
      if deep then |done| else 0, if deep then SumBytes(sizes, done) else 0)
  }

  ghost predicate SizesMatch(d: Disk, table: map<string, nat>, h: string) {
    h in table && h in d.objects && d.objects[h].ObjectFile? ==> |d.objects[h].data| == table[h]
  }

  /** One object more: what it adds to the figures. */
  ghost predicate Accounted(a: Audit, b: Audit, size: nat, referenced: bool, retained: bool, deep: bool) {
    && b.hashed == a.hashed + (if deep then 1 else 0)
    && b.hashedBytes == a.hashedBytes + (if deep then size else 0)
    && b.retained == a.retained + (if referenced && retained then 1 else 0)
    && b.dropOnly == a.dropOnly + (if referenced && !retained then 1 else 0)
    && b.dropOnlyBytes == a.dropOnlyBytes + (if referenced && !retained then size else 0)
    && b.unreferenced == a.unreferenced + (if !referenced then 1 else 0)
    && b.unreferencedBytes == a.unreferencedBytes + (if !referenced then size else 0)
  }

  lemma AuditStep(sizes: map<string, nat>, names: seq<string>, i: nat, all: set<string>, retained: set<string>,
      deep: bool)
    requires i < |names| && names[i] in sizes
    ensures Accounted(
      AuditOf(sizes, names[..i], all, retained, deep), AuditOf(sizes, names[..i + 1], all, retained, deep),
      SizeOf(sizes, names[i]), names[i] in all, names[i] in retained, deep)
  {
    hide SizeOf;
    SumBytesStep(sizes, names, i);
    FilterStep(sizes, names, all * retained, i);
    FilterStep(sizes, names, all - retained, i);
    FilterStep(sizes, names, sizes.Keys - all, i);
  }

  lemma {:induction false} AuditMonotone(sizes: map<string, nat>, names: seq<string>, i: nat, all: set<string>,
      retained: set<string>, deep: bool)
    requires i <= |names| && forall n :: n in names ==> n in sizes
    requires AuditFits(AuditOf(sizes, names, all, retained, deep))
    ensures AuditFits(AuditOf(sizes, names[..i], all, retained, deep))
    decreases |names| - i
  {
    if i == |names| {
      assert names[..i] == names;
    } else {
      AuditMonotone(sizes, names, i + 1, all, retained, deep);
      assert names[i] in names;
      AuditStep(sizes, names, i, all, retained, deep);
    }
  }

  /** Why an audit may give up. */
  ghost predicate Unsound(d: Disk, names: seq<string>, table: map<string, nat>, retained: set<string>, deep: bool) {
    !ObjectsOk(d, deep) || (exists h :: h in d.objects && !SizesMatch(d, table, h))
      || !AuditFits(AuditOf(ObjectSizes(d.objects), names, table.Keys, retained, deep))
  }

  /** One object: its name, its kind, in deep mode its digest, its size, and its account. */
  method AuditOne(d: Disk, names: seq<string>, i: nat, table: map<string, nat>, retained: set<string>, deep: bool,
      a: Audit)
    returns (r: Option<Audit>)
    requires names == Listing.Of(d.objects.Keys) && i < |names|
    requires a == AuditOf(ObjectSizes(d.objects), names[..i], table.Keys, retained, deep) && AuditFits(a)
    ensures r.Some? ==> ObjectOk(d, names[i], deep) && SizesMatch(d, table, names[i])
    ensures r.Some? ==>
      AuditFits(r.value) && r.value == AuditOf(ObjectSizes(d.objects), names[..i + 1], table.Keys, retained, deep)
    ensures r == None ==> Unsound(d, names, table, retained, deep)
  {
    hide SizeOf, AuditOf, ShaValid, ObjectSizes, ObjectOk, Accounted, AuditFits, Listing.Of;
    var name := names[i];
    assert name in names;
    if !ObjectOk(d, name, deep) {
      return None;
    }
    ObjectSizeAt(d, name, deep);
    var size := |d.objects[name].data|;
    if name in table && size != table[name] {
      assert !SizesMatch(d, table, name);
      return None;
    }
    r := Account(a, size, name in table, name in retained, deep);
    AuditAdvances(d, names, i, table, retained, deep, a, r);
  }

  lemma AuditAdvances(d: Disk, names: seq<string>, i: nat, table: map<string, nat>, retained: set<string>, deep: bool,
                      a: Audit, r: Option<Audit>)
    requires names == Listing.Of(d.objects.Keys) && i < |names|
    requires a == AuditOf(ObjectSizes(d.objects), names[..i], table.Keys, retained, deep)
    requires r.Some? ==> AuditFits(r.value)
    requires r.Some? ==>
      Accounted(a, r.value, SizeOf(ObjectSizes(d.objects), names[i]), names[i] in table, names[i] in retained, deep)
    requires r == None ==> forall b ::
      Accounted(a, b, SizeOf(ObjectSizes(d.objects), names[i]), names[i] in table, names[i] in retained, deep) ==>
        !AuditFits(b)
    ensures r.Some? ==> r.value == AuditOf(ObjectSizes(d.objects), names[..i + 1], table.Keys, retained, deep)
    ensures r == None ==> !AuditFits(AuditOf(ObjectSizes(d.objects), names, table.Keys, retained, deep))
  {
    hide SizeOf, AuditOf, Accounted, AuditFits, ObjectSizes, Listing.Of;
    var sizes := ObjectSizes(d.objects);
    ObjectSizesKeys(d);
    assert names[i] in names;
    AuditStep(sizes, names, i, table.Keys, retained, deep);
    if r.Some? {
      AccountedUnique(a, r.value, AuditOf(sizes, names[..i + 1], table.Keys, retained, deep),
        SizeOf(sizes, names[i]), names[i] in table, names[i] in retained, deep);
    } else if AuditFits(AuditOf(sizes, names, table.Keys, retained, deep)) {
      AuditMonotone(sizes, names, i + 1, table.Keys, retained, deep);
    }
  }

  /** The second pass: every stored object. */
  method AuditObjects(d: Disk, names: seq<string>, table: map<string, nat>, retained: set<string>, deep: bool)
    returns (r: Option<Audit>)
    requires names == Listing.Of(d.objects.Keys)
    ensures r.Some? ==>
      && ObjectsOk(d, deep) && (forall h :: h in d.objects ==> SizesMatch(d, table, h))
      && r.value == AuditOf(ObjectSizes(d.objects), names, table.Keys, retained, deep) && AuditFits(r.value)
    ensures r == None ==> Unsound(d, names, table, retained, deep)
  {
    hide AuditOf, ObjectSizes, ObjectOk, SizesMatch, Unsound, AuditFits;
    var a := Audit(0, 0, 0, 0, 0, 0, 0);
    AuditNothing(ObjectSizes(d.objects), table.Keys, retained, deep);
    for i := 0 to |names|
      invariant forall j :: 0 <= j < i ==> ObjectOk(d, names[j], deep) && SizesMatch(d, table, names[j])
      invariant a == AuditOf(ObjectSizes(d.objects), names[..i], table.Keys, retained, deep) && AuditFits(a)
    {
      var next := AuditOne(d, names, i, table, retained, deep, a);
      if next == None {
        return None;
      }
      a := next.value;
    }
    assert names[..|names|] == names;
    forall h | h in d.objects ensures ObjectOk(d, h, deep) && SizesMatch(d, table, h) {
      assert h in names;
    }
    r := Some(a);
  }

  method Account(a: Audit, size: nat, referenced: bool, retained: bool, deep: bool) returns (r: Option<Audit>)
    requires AuditFits(a)
    ensures r.Some? ==> Accounted(a, r.value, size, referenced, retained, deep) && AuditFits(r.value)
    ensures r == None ==> forall b :: Accounted(a, b, size, referenced, retained, deep) ==> !AuditFits(b)
  {
    var b := a;
    if deep {
      var sum := AddBytes(a.hashedBytes, size);
      if sum == None {
        return None;
      }
      b := b.(hashed := a.hashed + 1, hashedBytes := sum.value);
    }
    if referenced {
      if retained {
        b := b.(retained := a.retained + 1);
      } else {
        var sum := AddBytes(a.dropOnlyBytes, size);
        if sum == None {
          return None;
        }
        b := b.(dropOnly := a.dropOnly + 1, dropOnlyBytes := sum.value);
      }
    } else {
      var sum := AddBytes(a.unreferencedBytes, size);
      if sum == None {
        return None;
      }
      b := b.(unreferenced := a.unreferenced + 1, unreferencedBytes := sum.value);
    }
    r := Some(b);
  }

  lemma AccountedUnique(a: Audit, b: Audit, c: Audit, size: nat, referenced: bool, retained: bool, deep: bool)
    requires Accounted(a, b, size, referenced, retained, deep) && Accounted(a, c, size, referenced, retained, deep)
    ensures b == c
  {
  }

  lemma ObjectSizesKeys(d: Disk)
    ensures ObjectSizes(d.objects).Keys == d.objects.Keys
  {
  }

  lemma AuditNothing(sizes: map<string, nat>, all: set<string>, retained: set<string>, deep: bool)
    ensures AuditOf(sizes, [], all, retained, deep) == Audit(0, 0, 0, 0, 0, 0, 0)
    ensures AuditFits(Audit(0, 0, 0, 0, 0, 0, 0))
  {
  }

  lemma ObjectSizeAt(d: Disk, h: string, deep: bool)
    requires ObjectOk(d, h, deep)
    ensures h in d.objects && d.objects[h].ObjectFile?
    ensures SizeOf(ObjectSizes(d.objects), h) == |d.objects[h].data|
  {
  }

  /** Both passes, and the check that every referenced object was seen. */
  method Scan(d: Disk, keepLast: int, deep: bool) returns (r: Option<(int, Audit)>)
    requires keepLast >= 1
    ensures r.Some? ==> SnapshotsOk(d) && ObjectsOk(d, deep) && ReferencesOk(d)
    ensures r.Some? ==> r.value.0 == DropSnapshotBytes(d, keepLast) <= MAX_INT64
    ensures r.Some? ==> AuditFits(r.value.1) && r.value.1 == AuditFigures(d, keepLast, deep)
    ensures r == None ==>
      (!SnapshotsOk(d) || !ObjectsOk(d, deep) || !ReferencesOk(d) || !AuditFits(AuditFigures(d, keepLast, deep))
       || DropSnapshotBytes(d, keepLast) > MAX_INT64)
  {
    hide SnapshotsOk, ReferencesOk, ObjectsOk, SizesMatch, Referenced, RetainedHashes, DropOnlyHashes, AuditFits,
      UnreferencedHashes, SizeOf, ObjectSizes, SnapshotSizes, SumBytes, BytesOf, AuditOf, Surveyed, TableOf,
      Listing.Of, Unplannable, AuditFigures;
    var names := SnapshotListing(d);
    var dropCount := if |names| - keepLast < 0 then 0 else |names| - keepLast;
    var survey := SurveySnapshots(d, names, dropCount);
    if survey == None {
      UnplannableMeaning(d, keepLast);
      return None;
    }
    SurveyMeaning(d, keepLast, survey.value);
    var Survey(all, retained, dropSnapshotBytes) := survey.value;
    var audit := AuditObjects(d, Listing.Of(d.objects.Keys), all, retained, deep);
    AuditMeaning(d, keepLast, deep);
    if audit == None || !(all.Keys <= d.objects.Keys) {
      if ReferencesOk(d) { AllSizesMatch(d, all); }
      return None;
    }
    ReferencesPresent(d, all, deep);
    r := Some((dropSnapshotBytes, audit.value));
  }

  /** The plan. It succeeds exactly on the repositories in order, and its figures are those
      of the sets of names involved. */
  method PlanRetention(d: Disk, keepLast: int, deep: bool) returns (r: Option<Plan>)
    ensures r.Some? <==> PlanOk(d, keepLast, deep)
    ensures r.Some? ==> r.value == PlanOf(d, keepLast, deep)
  {
    hide SnapshotsOk, ReferencesOk, ObjectsOk, AuditFigures, DropSnapshotBytes, KeepNames, DropNames;
    if keepLast < 1 {
      return None;
    }
    var scan := Scan(d, keepLast, deep);
    if scan == None {
      assert !PlanOk(d, keepLast, deep);
      return None;
    }
    var (dropSnapshotBytes, a) := scan.value;
    var potential := AddAll(dropSnapshotBytes, a.dropOnlyBytes, a.unreferencedBytes);
    if potential == None {
      assert DropSnapshotBytes(d, keepLast) + AuditFigures(d, keepLast, deep).dropOnlyBytes
        + AuditFigures(d, keepLast, deep).unreferencedBytes > MAX_INT64;
      assert !PlanOk(d, keepLast, deep);
      return None;
    }
    assert PlanOk(d, keepLast, deep);
    r := Some(Plan(|d.snapshots.Keys|, KeepNames(d, keepLast), DropNames(d, keepLast), a.retained, a.dropOnly,
      a.unreferenced, a.dropOnlyBytes, a.unreferencedBytes, dropSnapshotBytes, potential.value,
        a.hashed, a.hashedBytes));
  }

  lemma UnplannableMeaning(d: Disk, keepLast: int)
    requires Unplannable(d, SnapshotListing(d), DropCount(d, keepLast))
    ensures !SnapshotsOk(d) || !ReferencesOk(d) || DropSnapshotBytes(d, keepLast) > MAX_INT64
  {
    hide SnapshotsOk, ReferencesOk, SnapshotSizes, SumBytes;
  }

  lemma SurveyMeaning(d: Disk, keepLast: int, s: Survey)
    requires keepLast >= 1 && Surveyed(d, SnapshotListing(d), DropCount(d, keepLast), s)
    ensures TableOf(d, d.snapshots.Keys, s.all) && s.all.Keys == Referenced(d, d.snapshots.Keys)
    ensures s.retained == RetainedHashes(d, keepLast)
    ensures s.dropBytes == SumBytes(SnapshotSizes(d), DropNames(d, keepLast)) <= MAX_INT64
  {
    hide RowsOf, SnapshotOk, SnapshotSizes, SumBytes;
    var names, dropCount := SnapshotListing(d), DropCount(d, keepLast);
    assert Kept(names, dropCount) == KeepNames(d, keepLast);
    assert Dropped(names, dropCount) == DropNames(d, keepLast);
    assert Elements(names) == d.snapshots.Keys;
  }

  method AddAll(a: int, b: int, c: int) returns (r: Option<int>)
    requires 0 <= a <= MAX_INT64 && 0 <= b <= MAX_INT64 && 0 <= c <= MAX_INT64
    ensures r == if a + b + c <= MAX_INT64 then Some(a + b + c) else None
  {
    var amounts, total := [a, b, c], 0;
    for i := 0 to |amounts|
      invariant 0 <= total <= MAX_INT64
      invariant total == if i == 0 then 0 else if i == 1 then a else if i == 2 then a + b else a + b + c
    {
      var sum := AddBytes(total, amounts[i]);
      if sum == None {
        return None;
      }
      total := sum.value;
    }
    r := Some(total);
  }

  lemma RetainedReferenced(d: Disk, keepLast: int)
    ensures RetainedHashes(d, keepLast) <= Referenced(d, d.snapshots.Keys)
  {
    hide RowsOf;
    assert Elements(KeepNames(d, keepLast)) <= d.snapshots.Keys;
  }

  /** The loop's figures, prefix by prefix, are the plan's figures, set by set. */
  lemma AuditMeaning(d: Disk, keepLast: int, deep: bool)
    ensures AuditFigures(d, keepLast, deep) ==
      AuditOf(ObjectSizes(d.objects), Listing.Of(d.objects.Keys), Referenced(d, d.snapshots.Keys),
        RetainedHashes(d, keepLast), deep)
  {
    hide RowsOf, SizeOf, Referenced, ObjectSizes, RetainedHashes;
    var keys, all, retained := d.objects.Keys, Referenced(d, d.snapshots.Keys), RetainedHashes(d, keepLast);
    ObjectSizesKeys(d);
    RetainedReferenced(d, keepLast);
    FilterIsListing(keys, all * retained);
    FilterIsListing(keys, all - retained);
    FilterIsListing(keys, keys - all);
    assert keys * (all * retained) == keys * retained;
    assert keys * (keys - all) == keys - all;
  }

  /** With every reference in place, the table's sizes are the stored sizes. */
  lemma AllSizesMatch(d: Disk, table: map<string, nat>)
    requires ReferencesOk(d) && TableOf(d, d.snapshots.Keys, table)
    ensures table.Keys <= d.objects.Keys
    ensures forall h :: h in d.objects ==> SizesMatch(d, table, h)
  {
    forall h | h in table ensures h in d.objects && SizesMatch(d, table, h) {
      var n :| n in d.snapshots && h in HashesOf(RowsOf(d, n));
      var i :| 0 <= i < |RowsOf(d, n)| && RowsOf(d, n)[i].hash == h;
      assert Agrees(table, RowsOf(d, n)) && RowsOk(d, n);
      assert RowOk(d, RowsOf(d, n)[i]);
    }
  }

  lemma ReferencesPresent(d: Disk, table: map<string, nat>, deep: bool)
    requires TableOf(d, d.snapshots.Keys, table) && table.Keys <= d.objects.Keys && ObjectsOk(d, deep)
    requires forall h :: h in d.objects ==> SizesMatch(d, table, h)
    ensures ReferencesOk(d)
  {
    hide RowsOf;
    forall n, i | n in d.snapshots && 0 <= i < |RowsOf(d, n)| ensures RowOk(d, RowsOf(d, n)[i]) {
      var h := RowsOf(d, n)[i].hash;
      assert Agrees(table, RowsOf(d, n));
      assert ObjectOk(d, h, deep) && SizesMatch(d, table, h);
    }
  }
}
