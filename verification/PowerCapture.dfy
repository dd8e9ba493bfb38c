/** Captures on a machine that may stop and lose power at any moment: when a published snapshot
    is durable together with its objects. */
module PowerCapture {
  import opened Content
  import opened SourceTree
  import opened Repository
  import opened RetentionPlan
  import opened Journal
  import opened Power
  import Capture

  // ----- storing objects -----

  lemma ItemInOrder(g: State, item: Item, n: nat)
    requires n <= |Capture.ItemActs(g, item)|
    ensures InOrder(g, Capture.ItemActs(g, item)[..n])
  {
    hide BucketName, Effect, Effects, Capture.HashOf, Capture.DataOf, CasItem;
    var acts := Capture.ItemActs(g, item);
    forall i | 0 <= i < n ensures ActInOrder(Effects(g, acts[..n][..i]), acts[..n][i]) {
      assert acts[..n][..i] == acts[..i];
      Capture.CreateEffects(g, Capture.HashOf(item), Capture.DataOf(item), i);
    }
  }

  /** What a capture issues is in order. */
  lemma {:induction false} CaptureInOrder(g: State, walk: seq<Item>)
    ensures InOrder(g, Capture.CaptureActs(g, walk))
  {
    hide Capture.ItemActs, Effects, ActInOrder;
    if walk != [] {
      var k := |walk| - 1;
      var before := Capture.CaptureActs(g, walk[..k]);
      var acts := Capture.ItemActs(Effects(g, before), walk[k]);
      CaptureInOrder(g, walk[..k]);
      ItemInOrder(Effects(g, before), walk[k], |acts|);
      assert acts[..|acts|] == acts;
      InOrderConcat(g, before, acts);
    }
  }

  predicate CaptureAct(a: Act) {
    a.MakeBucket? || (a.Link? && ObjectName(a.data) == a.hash) || (a.Issue? && a.op.Sync?)
  }

  /** Storing objects damages nothing, wherever it is stopped. */
  lemma StoringIsSafe(g: State, acts: seq<Act>, more: seq<Act>)
    requires AllIntact(g, acts) && forall i :: 0 <= i < |more| ==> CaptureAct(more[i])
    ensures Safe(g, acts, more)
  {
    hide AllIntact, Left, Cut;
    forall m: nat | m < |more| ensures AllHarmless(g, acts + more[..m], more[m]) {
      forall e: State ensures Harmless(e, more[m]) { CaptureHarmless(e, more[m]); }
    }
    SafeExactly(g, acts, more);
  }

  lemma CaptureHarmless(e: State, a: Act)
    requires CaptureAct(a)
    ensures Harmless(e, a)
  {
  }

  // ----- settled objects -----

  ghost predicate SyncedSince(acts: seq<Act>, i: nat, dir: Dir) {
    exists j :: i < j < |acts| && SyncOf(acts[j], dir)
  }

  /** The object's bucket was there at the last restart, and every change of the object since
      then has been synced. */
  ghost predicate Settled(g: State, acts: seq<Act>, h: string) {
    && BucketName(h) in g.buckets
    && forall i :: 0 <= i < |acts| && OnObject(acts[i], h) ==> SyncedSince(acts, i, Bucket(BucketName(h)))
  }

  lemma SettledStays(g: State, acts: seq<Act>, s: set<nat>, h: string)
    requires Settled(g, acts, h) && Cut(acts, s)
    ensures SameObject(Left(g, acts, s), Effects(g, acts), h)
  {
    hide Left, Effects, BucketName;
    forall i | 0 <= i < |acts| && OnObject(acts[i], h) ensures i in s {
      assert Bucket(BucketName(h)) in Places(acts[i]);
      var j :| i < j < |acts| && SyncOf(acts[j], Bucket(BucketName(h)));
    }
    ObjectIsLive(g, acts, s, h);
  }

  /** The cut that loses one directory's changes from one moment on. */
  function WithoutPlace(acts: seq<Act>, i: nat, dir: Dir): set<nat> {
    set p | p in All(|acts|) && !(i <= p && dir in Places(acts[p]))
  }

  lemma WithoutPlaceIsCut(acts: seq<Act>, i: nat, dir: Dir)
    requires dir == ObjectRoot || dir.Bucket?
    requires forall j :: i < j < |acts| ==> !SyncOf(acts[j], dir)
    ensures Cut(acts, WithoutPlace(acts, i, dir))
  {
    var s := WithoutPlace(acts, i, dir);
    forall p | 0 <= p < |acts| && dir in Places(acts[p]) ensures Places(acts[p]) == {dir} {}
    forall x, y | 0 <= x < y < |acts| && y in s && !(Places(acts[x]) !! Places(acts[y])) ensures x in s {}
  }

  /** If the bucket is newer than the last restart, a cut loses it. */
  lemma {:induction false} BucketLost(g: State, acts: seq<Act>, s: set<nat>, b: string)
    requires b !in g.buckets && forall i :: 0 <= i < |acts| && i in s ==> !acts[i].MakeBucket?
    ensures b !in Left(g, acts, s).buckets
  {
    hide Effect;
    if acts != [] {
      var k := |acts| - 1;
      BucketLost(g, acts[..k], s, b);
      if k in s { SameBuckets(Left(g, acts[..k], s), acts[k]); }
    }
  }

  lemma SameBuckets(g: State, a: Act)
    requires !a.MakeBucket?
    ensures Effect(g, a).buckets == g.buckets
  {
  }

  lemma {:induction false} LastChange(acts: seq<Act>, h: string, i: nat) returns (l: nat)
    requires i < |acts| && OnObject(acts[i], h)
    ensures i <= l < |acts| && OnObject(acts[l], h) && forall j :: l < j < |acts| ==> !OnObject(acts[j], h)
  {
    var k := |acts| - 1;
    if OnObject(acts[k], h) { l := k; } else { l := LastChange(acts[..k], h, i); }
  }

  /** After its last change an object is as that change left it. */
  lemma {:induction false} ChangeStays(g: State, acts: seq<Act>, s: set<nat>, h: string, l: nat)
    requires l <= |acts| && BucketName(h) in g.buckets && forall j: nat :: j < l ==> j in s
    requires forall j :: l <= j < |acts| && j in s ==> !OnObject(acts[j], h)
    ensures SameObject(Left(g, acts, s), Effects(g, acts[..l]), h)
  {
    hide Effect, BucketName;
    if l == |acts| {
      assert acts[..l] == acts;
      LeftAll(g, acts, s);
      BucketStays(g, acts, h);
    } else {
      var k := |acts| - 1;
      assert acts[..k][..l] == acts[..l] && forall j :: 0 <= j < k ==> acts[..k][j] == acts[j];
      ChangeStays(g, acts[..k], s, h, l);
      if k in s { ObjectEffect(Left(g, acts[..k], s), acts[k], h); }
    }
  }

  lemma {:induction false} BucketStays(g: State, acts: seq<Act>, h: string)
    requires BucketName(h) in g.buckets
    ensures BucketName(h) in Effects(g, acts).buckets
  {
    hide Effect, BucketName;
    if acts != [] {
      BucketStays(g, acts[..|acts| - 1], h);
      ObjectEffect(Effects(g, acts[..|acts| - 1]), acts[|acts| - 1], h);
    }
  }

  /** An object that the program sees and that is not settled is lost by some cut. */
  lemma UnsettledIsLost(g: State, acts: seq<Act>, h: string) returns (s: set<nat>)
    requires InOrder(g, acts) && AllIntact(g, acts) && !Settled(g, acts, h) && h in Effects(g, acts).disk.objects
    ensures Cut(acts, s) && h !in Left(g, acts, s).disk.objects
    ensures forall i :: 0 <= i < |acts| && SnapshotRoot in Places(acts[i]) ==> i in s
  {
    hide Effects, Left, BucketName, Effect, AllIntact, Cut, Intact;
    var b := BucketName(h);
    if b !in g.buckets {
      s := WithoutPlace(acts, 0, ObjectRoot);
      NeverSynced(g, acts);
      WithoutPlaceIsCut(acts, 0, ObjectRoot);
      BucketLost(g, acts, s, b);
      CutIntact(g, acts, s);
      NoBucketNoObject(Left(g, acts, s), h);
    } else {
      var i :| 0 <= i < |acts| && OnObject(acts[i], h) && !SyncedSince(acts, i, Bucket(b));
      var l := LastChange(acts, h, i);
      s := WithoutPlace(acts, l, Bucket(b));
      WithoutPlaceIsCut(acts, l, Bucket(b));
      OnBucket(h);
      ChangeStays(g, acts, s, h, l);
      LinkedAtLast(g, acts, h, l);
    }
  }

  lemma CutIntact(g: State, acts: seq<Act>, s: set<nat>)
    requires AllIntact(g, acts) && Cut(acts, s)
    ensures Intact(Left(g, acts, s))
  {
  }

  lemma OnBucket(h: string)
    ensures forall a: Act :: OnObject(a, h) ==> Places(a) == {Bucket(BucketName(h))}
  {
  }

  lemma NeverSynced(g: State, acts: seq<Act>)
    requires InOrder(g, acts)
    ensures forall j :: 0 <= j < |acts| ==> !SyncOf(acts[j], ObjectRoot)
  {
    forall j | 0 <= j < |acts| ensures !SyncOf(acts[j], ObjectRoot) {
      assert ActInOrder(Effects(g, acts[..j]), acts[j]);
    }
  }

  lemma NoBucketNoObject(g: State, h: string)
    requires Intact(g) && BucketName(h) !in g.buckets
    ensures h !in g.disk.objects
  {
  }

  /** The last change of an object that is there linked it where it was not. */
  lemma LinkedAtLast(g: State, acts: seq<Act>, h: string, l: nat)
    requires InOrder(g, acts) && h in Effects(g, acts).disk.objects && BucketName(h) in g.buckets
    requires l < |acts| && OnObject(acts[l], h) && forall j :: l < j < |acts| ==> !OnObject(acts[j], h)
    ensures h !in Effects(g, acts[..l]).disk.objects
  {
    hide Effect, BucketName, Effects;
    assert ActInOrder(Effects(g, acts[..l]), acts[l]);
    if !acts[l].Link? {
      assert acts[..l + 1] == acts[..l] + [acts[l]];
      EffectsOne(g, acts[..l], acts[l]);
      BucketStays(g, acts[..l], h);
      ObjectEffect(Effects(g, acts[..l]), acts[l], h);
      LeftAll(g, acts, All(|acts|));
      ChangeStays(g, acts, All(|acts|), h, l + 1);
      assert false;
    }
  }

  // ----- publishing -----

  /** The program sees every object that the snapshot's index mentions. */
  ghost predicate RowsSeen(d: Disk, node: SnapshotNode) {
    forall i :: 0 <= i < |IndexOf(node).rows| ==> RowStored(d, IndexOf(node).rows[i])
  }

  ghost predicate RowsSettled(g: State, acts: seq<Act>, node: SnapshotNode) {
    forall i :: 0 <= i < |IndexOf(node).rows| ==> Settled(g, acts, IndexOf(node).rows[i].hash)
  }

  lemma RowCarries(d: Disk, e: Disk, row: Row)
    requires row.hash in d.objects && row.hash in e.objects && d.objects[row.hash] == e.objects[row.hash]
    ensures RowStored(d, row) <==> RowStored(e, row)
  {
  }

  /** A snapshot that is published is safe against a power loss exactly if each of its objects
      is settled. */
  lemma PublishIsSafeExactly(g: State, acts: seq<Act>, name: string, generation: Generation)
    requires InOrder(g, acts) && AllIntact(g, acts) && RowsSeen(Effects(g, acts).disk, generation.node)
    ensures AllIntact(g, acts + [Publish(name, generation)]) <==> RowsSettled(g, acts, generation.node)
  {
    hide Effects, Left, IndexOf, AllIntact, Cut, InOrder, Settled, RowStored;
    var a, rows := Publish(name, generation), IndexOf(generation.node).rows;
    OneMoreIntact(g, acts, a);
    if RowsSettled(g, acts, generation.node) {
      forall s | Cut(acts + [a], s) && |acts| in s ensures Harmless(Left(g, acts, s), a) {
        CutBefore(acts, a, s);
        LeftSame(g, acts, s, Before(s, |acts|));
        forall i | 0 <= i < |rows| ensures RowStored(Left(g, acts, s).disk, rows[i]) {
          SettledStays(g, acts, Before(s, |acts|), rows[i].hash);
          SeenIsThere(Effects(g, acts).disk, rows[i]);
          RowCarries(Left(g, acts, s).disk, Effects(g, acts).disk, rows[i]);
        }
      }
    } else {
      var i :| 0 <= i < |rows| && !Settled(g, acts, rows[i].hash);
      SeenIsThere(Effects(g, acts).disk, rows[i]);
      var s := UnsettledIsLost(g, acts, rows[i].hash);
      PublishCut(acts, a, s);
      LeftSame(g, acts, s, s + {|acts|});
      SeenIsThere(Left(g, acts, s).disk, rows[i]);
      assert !Harmless(Left(g, acts, s + {|acts|}), a);
    }
  }

  lemma SeenIsThere(d: Disk, row: Row)
    ensures RowStored(d, row) ==> row.hash in d.objects
  {
  }

  lemma PublishCut(acts: seq<Act>, a: Act, s: set<nat>)
    requires a.Publish? && Cut(acts, s)
    requires forall i :: 0 <= i < |acts| && SnapshotRoot in Places(acts[i]) ==> i in s
    ensures Cut(acts + [a], s + {|acts|})
  {
    var all, t := acts + [a], s + {|acts|};
    forall x, y | 0 <= x < y < |all| && y in t && !(Places(all[x]) !! Places(all[y])) ensures x in t {
      if y < |acts| { assert all[x] == acts[x] && all[y] == acts[y]; }
    }
    forall x, y, dir | 0 <= x < y < |all| && dir in Places(all[x]) && SyncOf(all[y], dir) ensures x in t {
      assert y < |acts| && all[x] == acts[x] && all[y] == acts[y];
    }
  }

  // ----- which objects a capture settles -----

  /** The capture stores a new object in this bucket. */
  ghost predicate Fills(acts: seq<Act>, bucket: string) {
    exists i :: 0 <= i < |acts| && acts[i].Link? && BucketName(acts[i].hash) == bucket
  }

  /** A link is followed by the sync of its bucket, a sync comes after the link of an object in
      that bucket, and nothing is unlinked. */
  ghost predicate LinkSynced(acts: seq<Act>, i: nat)
    requires i < |acts|
  {
    match acts[i]
    case MakeBucket(_) => true
    case Link(h, _) => i + 1 < |acts| && acts[i + 1] == Issue(Sync(Bucket(BucketName(h))))
    case Issue(op) => i > 0 && acts[i - 1].Link? && op == Sync(Bucket(BucketName(acts[i - 1].hash)))
    case Publish(_, _) => false
  }

  ghost predicate LinksSynced(acts: seq<Act>) {
    forall i: nat :: i < |acts| ==> LinkSynced(acts, i)
  }

  lemma ItemLinksSynced(g: State, item: Item)
    ensures LinksSynced(Capture.ItemActs(g, item))
  {
    hide BucketName, Capture.HashOf, Capture.DataOf, CasItem;
  }

  lemma LinksSyncedConcat(a: seq<Act>, b: seq<Act>)
    requires LinksSynced(a) && LinksSynced(b)
    ensures LinksSynced(a + b)
  {
    hide BucketName;
    var all := a + b;
    forall i: nat | i < |all| ensures LinkSynced(all, i) {
      if i < |a| { assert LinkSynced(a, i); } else { assert LinkSynced(b, i - |a|); }
    }
  }

  lemma {:induction false} CaptureLinksSynced(g: State, walk: seq<Item>)
    ensures LinksSynced(Capture.CaptureActs(g, walk))
  {
    hide Capture.ItemActs, LinksSynced;
    if walk == [] {
      NoActs();
    } else {
      var before := Capture.CaptureActs(g, walk[..|walk| - 1]);
      CaptureLinksSynced(g, walk[..|walk| - 1]);
      ItemLinksSynced(Effects(g, before), walk[|walk| - 1]);
      LinksSyncedConcat(before, Capture.ItemActs(Effects(g, before), walk[|walk| - 1]));
    }
  }

  lemma NoActs()
    ensures LinksSynced([])
  {
  }

  /** A finished capture settles the objects of the buckets it stored something new in, if those
      buckets were there at the last restart; any other object is settled if it was before. */
  lemma CaptureSettles(g: State, acts: seq<Act>, walk: seq<Item>, h: string)
    ensures var more := Capture.CaptureActs(Effects(g, acts), walk);
      Settled(g, acts + more, h) <==>
        BucketName(h) in g.buckets && (Fills(more, BucketName(h)) || Settled(g, acts, h))
  {
    hide Effects, BucketName, Capture.CaptureActs;
    var more := Capture.CaptureActs(Effects(g, acts), walk);
    CaptureLinksSynced(Effects(g, acts), walk);
    if Fills(more, BucketName(h)) {
      FilledSettles(g, acts, more, h);
    } else {
      UnfilledKeeps(g, acts, more, h);
    }
  }

  lemma FilledSettles(g: State, acts: seq<Act>, more: seq<Act>, h: string)
    requires LinksSynced(more) && Fills(more, BucketName(h))
    ensures Settled(g, acts + more, h) <==> BucketName(h) in g.buckets
  {
    hide BucketName;
    var all := acts + more;
    var p :| 0 <= p < |more| && more[p].Link? && BucketName(more[p].hash) == BucketName(h);
    assert LinkSynced(more, p);
    assert SyncOf(all[|acts| + p + 1], Bucket(BucketName(h)));
    forall i | 0 <= i < |all| && OnObject(all[i], h) ensures SyncedSince(all, i, Bucket(BucketName(h))) {
      if i >= |acts| {
        assert LinkSynced(more, i - |acts|);
        assert SyncOf(all[i + 1], Bucket(BucketName(h)));
      }
    }
  }

  lemma UnfilledKeeps(g: State, acts: seq<Act>, more: seq<Act>, h: string)
    requires LinksSynced(more) && !Fills(more, BucketName(h))
    ensures Settled(g, acts + more, h) <==> Settled(g, acts, h)
  {
    hide BucketName;
    var all := acts + more;
    forall i | |acts| <= i < |all| ensures !OnObject(all[i], h) && !SyncOf(all[i], Bucket(BucketName(h))) {
      assert all[i] == more[i - |acts|] && LinkSynced(more, i - |acts|);
      if more[i - |acts|].Issue? { assert more[i - |acts| - 1].Link?; }
    }
    forall i | 0 <= i < |acts| ensures all[i] == acts[i] {}
    forall i | 0 <= i < |acts| && OnObject(acts[i], h)
      ensures SyncedSince(all, i, Bucket(BucketName(h))) <==> SyncedSince(acts, i, Bucket(BucketName(h)))
    {
      if SyncedSince(all, i, Bucket(BucketName(h))) {
        var j :| i < j < |all| && SyncOf(all[j], Bucket(BucketName(h)));
        assert j < |acts| && SyncOf(acts[j], Bucket(BucketName(h)));
      }
      if SyncedSince(acts, i, Bucket(BucketName(h))) {
        var j :| i < j < |acts| && SyncOf(acts[j], Bucket(BucketName(h)));
        assert SyncOf(all[j], Bucket(BucketName(h)));
      }
    }
    if Settled(g, all, h) {
      forall i | 0 <= i < |acts| && OnObject(acts[i], h) ensures SyncedSince(acts, i, Bucket(BucketName(h))) {
        assert OnObject(all[i], h);
      }
    }
  }
}
