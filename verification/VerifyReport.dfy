/** Verifying one snapshot: its published metadata, every object of its index, its archive. */
module VerifyReport {
  import opened Wrappers
  import opened Content
  import opened SnapshotNames
  import opened Repository
  import opened RetentionPlan
  import opened PruneSpec
  import opened Sums
  import ObjectIndex

  datatype Failure =
    | UnsafeSnapshot | InvalidIndex | InvalidArchive
    | MissingObject | UnsafeObject | SizeMismatch | Overflow | DigestMismatch

  datatype Verification = Verification(failure: Option<Failure>, objectsChecked: nat, bytesHashed: int)

  const METADATA := ["database.dump", "verify.json", "manifest.json", "SHA256SUMS.txt"]

  /** A snapshot is published when its name says so, or when it holds any published file. */
  predicate Published(d: Disk, name: string) {
    || PREFIX <= name
    || (name in d.snapshots && d.snapshots[name].SnapshotDir? &&
        exists i :: 0 <= i < |METADATA| && METADATA[i] in d.snapshots[name].files)
  }

  ghost predicate MetadataOk(d: Disk, name: string) {
    && (name in d.snapshots ==> d.snapshots[name].SnapshotDir?)
    && (PREFIX <= name ==> Canonical(name))
    && (Published(d, name) ==> name in d.snapshots && Committed(d.snapshots[name]))
  }

  lemma MetadataMeaning(d: Disk, name: string)
    ensures MetadataOk(d, name) <==>
      && (name in d.snapshots ==> d.snapshots[name].SnapshotDir?)
      && ("xdrive-backup-" <= name ==> name in d.snapshots && Canonical(name) && Committed(d.snapshots[name]))
      && (name in d.snapshots && d.snapshots[name].SnapshotDir? && !Committed(d.snapshots[name]) ==>
            d.snapshots[name].files.Keys !! {"database.dump", "verify.json", "manifest.json", "SHA256SUMS.txt"})
  {
    hide Committed, Canonical;
    assert METADATA[0] == "database.dump" && METADATA[1] == "verify.json";
    assert METADATA[2] == "manifest.json" && METADATA[3] == "SHA256SUMS.txt";
    if name in d.snapshots && d.snapshots[name].SnapshotDir? {
      var keys := d.snapshots[name].files.Keys;
      assert (exists i :: 0 <= i < |METADATA| && METADATA[i] in keys) <==>
        "database.dump" in keys || "verify.json" in keys || "manifest.json" in keys || "SHA256SUMS.txt" in keys;
    }
  }

  method VerifyMetadata(d: Disk, name: string) returns (ok: bool)
    ensures ok <==> MetadataOk(d, name)
    ensures ok <==>
      && (name in d.snapshots ==> d.snapshots[name].SnapshotDir?)
      && ("xdrive-backup-" <= name ==> name in d.snapshots && Canonical(name) && Committed(d.snapshots[name]))
      && (name in d.snapshots && d.snapshots[name].SnapshotDir? && !Committed(d.snapshots[name]) ==>
            d.snapshots[name].files.Keys !! {"database.dump", "verify.json", "manifest.json", "SHA256SUMS.txt"})
  {
    MetadataMeaning(d, name);
    if name in d.snapshots && !d.snapshots[name].SnapshotDir? {
      return false;
    }
    var published := PREFIX <= name;
    if published && !Canonical(name) {
      return false;
    }
    for i := 0 to |METADATA|
      invariant published <==>
        PREFIX <= name || (name in d.snapshots && exists j :: 0 <= j < i && METADATA[j] in d.snapshots[name].files)
    {
      if name in d.snapshots && METADATA[i] in d.snapshots[name].files {
        published := true;
      }
    }
    if !published {
      return true;
    }
    if name !in d.snapshots {
      return false;
    }
    var size := ValidateCommittedSnapshot(d.snapshots[name]);
    ok := size.Some?;
  }

  function ReadingOf(d: Disk, name: string): ObjectIndex.Reading {
    if name in d.snapshots then IndexOf(d.snapshots[name]) else ObjectIndex.Reading([], false)
  }

  function RowBytes(rows: seq<Row>): nat {
    if rows == [] then 0 else RowBytes(rows[..|rows| - 1]) + rows[|rows| - 1].size
  }

  /** What is wrong with the object of one row, in the order of the checks. */
  function Defect(d: Disk, row: Row, full: bool, hashed: int): Option<Failure> {
    if row.hash !in d.objects then Some(MissingObject)
    else if !d.objects[row.hash].ObjectFile? then Some(UnsafeObject)
    else if |d.objects[row.hash].data| != row.size then Some(SizeMismatch)
    else if full && row.size > MAX_INT64 - hashed then Some(Overflow)
    else if full && ObjectName(d.objects[row.hash].data) != row.hash then Some(DigestMismatch)
    else None
  }

  function Hashed(rows: seq<Row>, full: bool): nat {
    if full then RowBytes(rows) else 0
  }

  /** The first `n` rows pass. */
  ghost predicate PassUpTo(d: Disk, rows: seq<Row>, full: bool, n: nat)
    requires n <= |rows|
  {
    forall i :: 0 <= i < n ==> Defect(d, rows[i], full, Hashed(rows[..i], full)) == None
  }

  ghost predicate Verified(d: Disk, name: string, full: bool) {
    var reading := ReadingOf(d, name);
    MetadataOk(d, name) && PassUpTo(d, reading.rows, full, |reading.rows|) && reading.ok && ArchiveOk(d, name)
  }

  predicate HasFile(d: Disk, h: string) {
    h in d.objects && d.objects[h].ObjectFile?
  }

  /** The first defective row ends the reading; its bytes count if they were hashed. */
  method VerifyRows(d: Disk, rows: seq<Row>, full: bool) returns (r: Verification)
    ensures r.objectsChecked <= |rows| && PassUpTo(d, rows, full, r.objectsChecked)
    ensures r.failure == None <==> r.objectsChecked == |rows|
    ensures r.failure == None ==> r.bytesHashed == Hashed(rows, full)
    ensures r.failure.Some? ==>
      && r.failure == Defect(d, rows[r.objectsChecked], full, Hashed(rows[..r.objectsChecked], full))
      && r.bytesHashed == Hashed(rows[..r.objectsChecked], full) +
           if r.failure == Some(DigestMismatch) then rows[r.objectsChecked].size else 0
    // every row before it has its object, of the recorded size and, if read in full, of its digest
    ensures forall i :: 0 <= i < r.objectsChecked ==>
      && HasFile(d, rows[i].hash) && |d.objects[rows[i].hash].data| == rows[i].size
      && (full ==> Sha256(Raw(d.objects[rows[i].hash].data)) == rows[i].hash)
    // and the category says what is wrong with that row
    ensures r.failure.Some? ==>
      var row, hashed := rows[r.objectsChecked], if full then RowBytes(rows[..r.objectsChecked]) else 0;
      && (r.failure == Some(MissingObject) <==> row.hash !in d.objects)
      && (r.failure == Some(UnsafeObject) <==> row.hash in d.objects && d.objects[row.hash].OtherObject?)
      && (r.failure == Some(SizeMismatch) <==>
            HasFile(d, row.hash) && |d.objects[row.hash].data| != row.size)
      && (r.failure == Some(Overflow) <==>
            HasFile(d, row.hash) && |d.objects[row.hash].data| == row.size && full
              && hashed + row.size > 0x7fff_ffff_ffff_ffff)
      && (r.failure == Some(DigestMismatch) <==>
            HasFile(d, row.hash) && |d.objects[row.hash].data| == row.size && full
              && hashed + row.size <= 0x7fff_ffff_ffff_ffff && Sha256(Raw(d.objects[row.hash].data)) != row.hash)
  {
    var bytes := 0;
    for i := 0 to |rows|
      invariant PassUpTo(d, rows, full, i) && bytes == Hashed(rows[..i], full)
    {
      var defect := Defect(d, rows[i], full, bytes);
      assert rows[..i + 1][..i] == rows[..i];
      if defect.Some? && defect != Some(DigestMismatch) {
        return Verification(defect, i, bytes);
      }
      if full {
        bytes := bytes + |d.objects[rows[i].hash].data|;
      }
      if defect.Some? {
        return Verification(defect, i, bytes);
      }
    }
    assert rows[..|rows|] == rows;
    r := Verification(None, |rows|, bytes);
  }

  /** The whole verification. Success means every part passed; a failure names the first part
      that did not, and counts what passed before it. */
  method VerifyWithReport(d: Disk, name: string, full: bool) returns (r: Verification)
    ensures var rows := ReadingOf(d, name).rows;
      && (r.failure == None <==> Verified(d, name, full))
      && (r.failure == None ==> r.objectsChecked == |rows| && r.bytesHashed == Hashed(rows, full))
      && r.objectsChecked <= |rows|
      && (r.failure == Some(UnsafeSnapshot) <==> !MetadataOk(d, name))
      && (r.failure == Some(UnsafeSnapshot) ==> r.objectsChecked == 0 && r.bytesHashed == 0)
      && (MetadataOk(d, name) ==> PassUpTo(d, rows, full, r.objectsChecked))
      && (r.failure == Some(InvalidIndex) <==>
        (MetadataOk(d, name) && PassUpTo(d, rows, full, |rows|) && !ReadingOf(d, name).ok))
      && (r.failure == Some(InvalidArchive) <==>
            (MetadataOk(d, name) && PassUpTo(d, rows, full, |rows|) && ReadingOf(d, name).ok && !ArchiveOk(d, name)))
      && (r.failure.Some? && r.failure.value !in [UnsafeSnapshot, InvalidIndex, InvalidArchive] ==>
            && r.objectsChecked < |rows|
            && r.failure == Defect(d, rows[r.objectsChecked], full, Hashed(rows[..r.objectsChecked], full)))
    // every row counted has its object, of the recorded size and, if read in full, of its digest
    ensures var rows := ReadingOf(d, name).rows;
      forall i :: 0 <= i < r.objectsChecked ==>
        && HasFile(d, rows[i].hash) && |d.objects[rows[i].hash].data| == rows[i].size
        && (full ==> Sha256(Raw(d.objects[rows[i].hash].data)) == rows[i].hash)
    // and the category says what is wrong with the first other one
    ensures var rows := ReadingOf(d, name).rows;
      MetadataOk(d, name) && r.objectsChecked < |rows| ==>
        var row, hashed := rows[r.objectsChecked], if full then RowBytes(rows[..r.objectsChecked]) else 0;
        && (r.failure == Some(MissingObject) <==> row.hash !in d.objects)
        && (r.failure == Some(UnsafeObject) <==> row.hash in d.objects && d.objects[row.hash].OtherObject?)
        && (r.failure == Some(SizeMismatch) <==>
              HasFile(d, row.hash) && |d.objects[row.hash].data| != row.size)
        && (r.failure == Some(Overflow) <==>
              HasFile(d, row.hash) && |d.objects[row.hash].data| == row.size && full
                && hashed + row.size > 0x7fff_ffff_ffff_ffff)
        && (r.failure == Some(DigestMismatch) <==>
              HasFile(d, row.hash) && |d.objects[row.hash].data| == row.size && full
                && hashed + row.size <= 0x7fff_ffff_ffff_ffff && Sha256(Raw(d.objects[row.hash].data)) != row.hash)
  {
    hide MetadataOk, ArchiveOk, IndexOf;
    var metadata := VerifyMetadata(d, name);
    if !metadata {
      return Verification(Some(UnsafeSnapshot), 0, 0);
    }
    var reading := ReadingOf(d, name);
    r := VerifyRows(d, reading.rows, full);
    if r.failure.Some? {
      return;
    }
    if !reading.ok {
      return r.(failure := Some(InvalidIndex));
    }
    var archive := ValidateArchive(d, name);
    if !archive {
      r := r.(failure := Some(InvalidArchive));
    }
  }

  // ----- a successful deep plan -----

  lemma {:induction false} RowBytesAre(sizes: map<string, nat>, rows: seq<Row>)
    requires ObjectIndex.Distinct(rows)
    requires forall i :: 0 <= i < |rows| ==> SizeOf(sizes, rows[i].hash) == rows[i].size
    ensures RowBytes(rows) == BytesOf(sizes, HashesOf(rows))
  {
    hide SizeOf, BytesOf;
    if rows == [] {
      assert HashesOf(rows) == {};
      NoBytes(sizes);
    } else {
      var k := |rows| - 1;
      RowBytesAre(sizes, rows[..k]);
      assert HashesOf(rows) == HashesOf(rows[..k]) + {rows[k].hash};
      BytesWith(sizes, sizes, HashesOf(rows[..k]), rows[k].hash);
    }
  }

  lemma NoBytes(sizes: map<string, nat>)
    ensures BytesOf(sizes, {}) == 0
  {
  }

  lemma {:induction false} RowBytesGrow(rows: seq<Row>, n: nat)
    requires n <= |rows|
    ensures RowBytes(rows[..n]) <= RowBytes(rows)
  {
    if n < |rows| {
      RowBytesGrow(rows[..|rows| - 1], n);
      assert rows[..|rows| - 1][..n] == rows[..n];
    } else {
      assert rows[..n] == rows;
    }
  }

  /** The objects of one index, being among those the plan has summed, cannot overflow. */
  lemma PlannedRowsFit(d: Disk, keepLast: int, name: string)
    requires PlanOk(d, keepLast, true) && name in d.snapshots
    ensures RowBytes(RowsOf(d, name)) <= MAX_INT64
  {
    hide RowsOf, SnapshotsOk, ObjectsOk, BytesOf, DropOnlyHashes, UnreferencedHashes, RetainedHashes, DropSnapshotBytes;
    var rows, sizes := RowsOf(d, name), ObjectSizes(d.objects);
    assert RowsOk(d, name);
    RowsDistinct(d, name);
    forall i | 0 <= i < |rows| ensures SizeOf(sizes, rows[i].hash) == rows[i].size && rows[i].hash in d.objects {
      assert RowOk(d, rows[i]);
    }
    RowBytesAre(sizes, rows);
    BytesMonotone(sizes, HashesOf(rows), d.objects.Keys);
  }

  /** After a successful deep plan every committed snapshot verifies in full, without a
      counter overflowing, if its archive can be restored. */
  lemma DeepPlanVerifies(d: Disk, keepLast: int, name: string)
    requires PlanOk(d, keepLast, true) && name in d.snapshots
    ensures MetadataOk(d, name) && ReadingOf(d, name).ok
    ensures PassUpTo(d, ReadingOf(d, name).rows, true, |ReadingOf(d, name).rows|)
    ensures Verified(d, name, true) <==> ArchiveOk(d, name)
  {
    hide Committed, Canonical, ArchiveOk, IndexOf, TotalsOk, ShaValid;
    assert SnapshotOk(d, name);
    PlannedRowsFit(d, keepLast, name);
    var rows := RowsOf(d, name);
    assert RowsOk(d, name);
    forall i | 0 <= i < |rows| ensures Defect(d, rows[i], true, RowBytes(rows[..i])) == None {
      assert RowOk(d, rows[i]);
      assert ObjectOk(d, rows[i].hash, true);
      RowBytesGrow(rows, i + 1);
      assert rows[..i + 1][..i] == rows[..i];
    }
    CommittedIsDirectory(d.snapshots[name]);
  }

  lemma CommittedIsDirectory(node: SnapshotNode)
    requires Committed(node)
    ensures node.SnapshotDir?
  {
  }
}
