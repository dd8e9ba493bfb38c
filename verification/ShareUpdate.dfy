/** Choosing and recording a release from a Share that may answer anything at all. */
module ShareUpdate {
  import opened Wrappers
  import opened Content
  import opened SnapshotNames
  import Listing

  const MAX_METADATA := 8 * 1024 * 1024
  const MAX_DESCRIPTOR := 64 * 1024
  const MAX_PACKAGE := 8 * 1024 * 1024 * 1024
  const SEQUENCE_LIMIT := 10_000_000_000_000_000

  datatype Kind = Folder | Document

  datatype Entry = Entry(id: int, name: string, kind: Kind, size: int)

  /** One request of the updater; a download is a ticket and the bytes it leads to. */
  datatype Request = ShareInfo | ListChildren(parent: int, cursor: int) | Fetch(node: int)

  /** One answer of the Share, after transport and JSON decoding; retries that end well are one
      answer. */
  datatype Reply = Page(items: seq<Entry>, next: int) | Info(kind: Kind) | Data(bytes: Bytes) | Broken

  /** How a Share answers: anything at all, also depending on everything it was asked before. */
  type Service = seq<Request> -> Reply

  type Names = map<string, Entry>

  class Remote {
    const serve: Service
    var asked: seq<Request>

    constructor (service: Service)
      ensures serve == service && asked == []
    {
      serve, asked := service, [];
    }

    method Ask(q: Request) returns (r: Reply)
      modifies this`asked
      ensures asked == old(asked) + [q] && r == serve(asked)
    {
      asked := asked + [q];
      r := serve(asked);
    }
  }

  /** What an exchange with the Share delivered, if it succeeded, and all requests up to then. */
  datatype Got<T> = Got(value: Option<T>, asked: seq<Request>)

  // ----- paginated listings -----

  predicate EntryValid(e: Entry) {
    e.id > 0 && 0 < |e.name| <= 255 && 0 <= e.size <= MAX_PACKAGE
  }

  /** The entries of one page, added to those before; a name may not repeat. */
  function AddEntries(found: Names, items: seq<Entry>): Option<Names> {
    if items == [] then Some(found)
    else
      var before, e := AddEntries(found, items[..|items| - 1]), items[|items| - 1];
      if before == None || !EntryValid(e) || e.name in before.value then None else Some(before.value[e.name := e])
  }

  /** One page: what is known after it, or `None`. */
  function AddPage(found: Names, reply: Reply): Option<Names> {
    if reply.Page? && |reply.items| <= 100 && reply.next >= 0 then AddEntries(found, reply.items) else None
  }

  /** Pages are asked for with strictly increasing cursors until one says it is the last; there
      may be at most a hundred. */
  function Pages(serve: Service, asked: seq<Request>, parent: int, cursor: int, found: Names, left: nat): Got<Names>
    decreases left
  {
    if left == 0 then Got(None, asked)
    else
      var now := asked + [ListChildren(parent, cursor)];
      var more := AddPage(found, serve(now));
      if more == None then Got(None, now)
      else if serve(now).next == 0 then Got(more, now)
      else if serve(now).next <= cursor then Got(None, now)
      else Pages(serve, now, parent, serve(now).next, more.value, left - 1)
  }

  /** The listing of one folder. */
  function FolderOf(serve: Service, asked: seq<Request>, parent: int): Got<Names> {
    Pages(serve, asked, parent, 0, map[], 100)
  }

  ghost predicate Named(found: Names) {
    forall n :: n in found ==> found[n].name == n && EntryValid(found[n])
  }

  lemma {:induction false} AddEntriesNamed(found: Names, items: seq<Entry>)
    requires Named(found) && AddEntries(found, items).Some?
    ensures Named(AddEntries(found, items).value)
  {
    hide EntryValid;
    if items != [] { AddEntriesNamed(found, items[..|items| - 1]); }
  }

  /** A page adds its entries, all of them, and nothing else. */
  lemma {:induction false} PageAdds(found: Names, items: seq<Entry>, n: string)
    requires AddEntries(found, items).Some?
    ensures n in found ==> n in AddEntries(found, items).value && AddEntries(found, items).value[n] == found[n]
    ensures n in AddEntries(found, items).value && n !in found <==>
      n !in found && exists i :: 0 <= i < |items| && items[i].name == n
    ensures forall i :: 0 <= i < |items| && items[i].name == n ==> AddEntries(found, items).value[n] == items[i]
  {
    hide EntryValid;
    if items != [] {
      var k := |items| - 1;
      PageAdds(found, items[..k], n);
      assert items == items[..k] + [items[k]];
    }
  }

  /** A listing holds only valid entries under their own names. */
  lemma {:induction false} PagesNamed(serve: Service, asked: seq<Request>, parent: int, cursor: int, found: Names,
      left: nat)
    requires Named(found)
    ensures var got := Pages(serve, asked, parent, cursor, found, left); got.value.Some? ==> Named(got.value.value)
    decreases left
  {
    var now := asked + [ListChildren(parent, cursor)];
    if left > 0 && AddPage(found, serve(now)).Some? {
      AddEntriesNamed(found, serve(now).items);
      PagesNamed(serve, now, parent, serve(now).next, AddPage(found, serve(now)).value, left - 1);
    }
  }

  /** `Share.children`. The cursors grow, so the test for a repeated one never fires. */
  method Children(share: Remote, parent: int) returns (r: Option<Names>)
    requires parent >= 0
    modifies share`asked
    ensures Got(r, share.asked) == FolderOf(share.serve, old(share.asked), parent)
    ensures r.Some? ==> Named(r.value)
  {
    hide AddEntries, EntryValid, AddPage, Named, Pages;
    NothingNamed();
    var cursor, found, cursors: set<int> := 0, map[], {};
    ghost var asked := share.asked;
    PagesNamed(share.serve, asked, parent, 0, map[], 100);
    for turn := 0 to 100
      invariant Pages(share.serve, asked, parent, 0, map[], 100) ==
        Pages(share.serve, share.asked, parent, cursor, found, 100 - turn)
      invariant forall c :: c in cursors ==> c < cursor
    {
      assert cursor !in cursors;
      cursors := cursors + {cursor};
      PagesStep(share.serve, share.asked, parent, cursor, found, 100 - turn);
      var reply := share.Ask(ListChildren(parent, cursor));
      var more := ReadPage(found, reply);
      if more == None {
        return None;
      }
      if reply.next == 0 {
        return more;
      }
      if reply.next <= cursor {
        return None;
      }
      cursor, found := reply.next, more.value;
    }
    NoPagesLeft(share.serve, share.asked, parent, cursor, found);
    r := None;
  }

  lemma PagesStep(serve: Service, asked: seq<Request>, parent: int, cursor: int, found: Names, left: nat)
    requires left > 0
    ensures var now := asked + [ListChildren(parent, cursor)];
      var more := AddPage(found, serve(now));
      Pages(serve, asked, parent, cursor, found, left) ==
        if more == None then Got(None, now)
        else if serve(now).next == 0 then Got(more, now)
        else if serve(now).next <= cursor then Got(None, now)
        else Pages(serve, now, parent, serve(now).next, more.value, left - 1)
  {
    hide AddEntries;
  }

  lemma NoPagesLeft(serve: Service, asked: seq<Request>, parent: int, cursor: int, found: Names)
    ensures Pages(serve, asked, parent, cursor, found, 0) == Got(None, asked)
  {
  }

  lemma NothingNamed()
    ensures Named(map[])
  {
  }

  method ReadPage(found: Names, reply: Reply) returns (r: Option<Names>)
    ensures r == AddPage(found, reply)
    ensures r.Some? ==> reply.Page? && reply.next >= 0
  {
    hide EntryValid;
    if !reply.Page? || |reply.items| > 100 {
      return None;
    }
    var names := found;
    for i := 0 to |reply.items|
      invariant AddEntries(found, reply.items[..i]) == Some(names)
    {
      var e := reply.items[i];
      assert reply.items[..i + 1][..i] == reply.items[..i];
      if !EntryValid(e) || e.name in names {
        AddEntriesFails(found, reply.items, i + 1);
        return None;
      }
      names := names[e.name := e];
    }
    assert reply.items[..|reply.items|] == reply.items;
    r := if reply.next < 0 then None else Some(names);
  }

  lemma {:induction false} AddEntriesFails(found: Names, items: seq<Entry>, i: nat)
    requires i <= |items| && AddEntries(found, items[..i]) == None
    ensures AddEntries(found, items) == None
  {
    hide EntryValid;
    if i < |items| {
      assert items[..|items| - 1][..i] == items[..i];
      AddEntriesFails(found, items[..|items| - 1], i);
    } else {
      assert items[..i] == items;
    }
  }

  // ----- identities and the rollback floor -----

  predicate CommitName(s: string) {
    |s| == 40 && forall i :: 0 <= i < 40 ==> '0' <= s[i] <= '9' || 'a' <= s[i] <= 'f'
  }

  datatype Identity = Identity(sequence: int, commit: string, digest: string)

  /** What a release must not fall below; a floor without an identity pins only the number. */
  datatype Floor = Floor(sequence: int, pinned: Option<(string, string)>)

  predicate AboveFloor(candidate: Identity, floor: Floor) {
    && candidate.sequence >= floor.sequence
    && (candidate.sequence == floor.sequence ==>
          candidate.commit != "" && candidate.digest != ""
            && floor.pinned == Some((candidate.commit, candidate.digest)))
  }

  function FloorOf(i: Identity): Floor {
    Floor(i.sequence, Some((i.commit, i.digest)))
  }

  // ----- what the updater keeps on disk -----

  datatype Local = Local(highWater: Option<Identity>, installed: Option<Identity>)

  predicate IdentityValid(i: Identity) {
    0 < i.sequence < SEQUENCE_LIMIT && CommitName(i.commit) && ShaValid(i.digest)
  }

  /** `read_floor`: the recorded identity, if there is one and it is not itself below the
      configured floor. */
  function ReadFloor(local: Local, initial: Floor): Option<Floor> {
    match local.highWater
    case None => Some(initial)
    case Some(i) => if IdentityValid(i) && AboveFloor(i, initial) then Some(FloorOf(i)) else None
  }

  // ----- discovery -----

  datatype Artifact = Artifact(name: string, size: int, sha: string)

  datatype Descriptor = Descriptor(sequence: int, commit: string, manifest: Artifact, installer: Artifact)

  /** JSON decoding and the publisher's signature check are oracles. */
  const DecodeDescriptor: Bytes -> Option<Descriptor>
  const PublisherAccepts: (Bytes, Bytes) -> bool

  predicate ArtifactValid(a: Artifact, name: string) {
    a.name == name && ShaValid(a.sha) && 0 < a.size <= MAX_METADATA
  }

  predicate DescriptorValid(d: Descriptor) {
    && CommitName(d.commit) && 0 < d.sequence < SEQUENCE_LIMIT
    && ArtifactValid(d.manifest, "manifest.json") && ArtifactValid(d.installer, "xdrive-offline.py")
  }

  /** `<sequence>-<commit>`, the sequence in one to sixteen digits without a leading zero. */
  function ReleaseName(name: string): Option<(int, string)> {
    var k := |name| - 41;
    if 1 <= k <= 16 && Digits(name[..k]) && name[0] != '0' && name[k] == '-' && CommitName(name[k + 1..])
    then Some((Value(name[..k]), name[k + 1..])) else None
  }

  datatype Candidate = Candidate(sequence: int, commit: string, folder: Entry)

  predicate CandidateEntry(e: Entry) {
    e.kind == Folder && ReleaseName(e.name).Some?
  }

  function CandidateOf(e: Entry): Candidate
    requires CandidateEntry(e)
  {
    Candidate(ReleaseName(e.name).value.0, ReleaseName(e.name).value.1, e)
  }

  /** The order in which candidates are tried, greatest first. */
  predicate Before(a: Candidate, b: Candidate) {
    a.sequence > b.sequence || (a.sequence == b.sequence && Listing.Less(b.commit, a.commit))
  }

  /** The candidates among the first few names of a listing. */
  function CandidatesOf(found: Names, names: seq<string>): seq<Candidate> {
    if names == [] then []
    else
      var before, n := CandidatesOf(found, names[..|names| - 1]), names[|names| - 1];
      if n in found && CandidateEntry(found[n]) then before + [CandidateOf(found[n])] else before
  }

  lemma {:induction false} CandidatesAre(found: Names, names: seq<string>)
    requires Named(found)
    ensures forall n :: n in names && n in found && CandidateEntry(found[n]) ==>
      CandidateOf(found[n]) in CandidatesOf(found, names)
    ensures forall c :: c in CandidatesOf(found, names) ==>
      c.folder.name in found && found[c.folder.name] == c.folder && CandidateEntry(c.folder)
        && CandidateOf(c.folder) == c
  {
    hide ReleaseName;
    if names != [] {
      var k := |names| - 1;
      CandidatesAre(found, names[..k]);
      assert names == names[..k] + [names[k]];
    }
  }

  lemma BeforeOrder(a: Candidate, b: Candidate, c: Candidate)
    ensures Before(a, b) && Before(b, c) ==> Before(a, c)
    ensures !Before(a, a)
    ensures Before(a, b) || Before(b, a) || (a.sequence == b.sequence && a.commit == b.commit)
    ensures !(Before(a, b) && Before(b, a))
  {
    Listing.LessTotal(a.commit, b.commit);
    Listing.LessTotal(a.commit, a.commit);
    if Before(a, b) && Before(b, c) && a.sequence == b.sequence == c.sequence {
      Listing.LessTrans(c.commit, b.commit, a.commit);
    }
  }

  /** Where the greatest of some candidates is. */
  function GreatestOf(cs: seq<Candidate>): (i: nat)
    requires cs != []
    ensures i < |cs|
  {
    if |cs| == 1 then 0
    else
      var i := GreatestOf(cs[..|cs| - 1]);
      if Before(cs[|cs| - 1], cs[i]) then |cs| - 1 else i
  }

  lemma {:induction false} GreatestIs(cs: seq<Candidate>)
    requires cs != []
    ensures forall j :: 0 <= j < |cs| ==> !Before(cs[j], cs[GreatestOf(cs)])
  {
    hide Before;
    var k := |cs| - 1;
    BeforeOrder(cs[k], cs[k], cs[k]);
    if k > 0 {
      GreatestIs(cs[..k]);
      var i := GreatestOf(cs[..k]);
      forall j | 0 <= j < k ensures !Before(cs[j], cs[GreatestOf(cs)]) {
        assert !Before(cs[..k][j], cs[..k][i]);
        BeforeOrder(cs[j], cs[k], cs[i]);
      }
    }
  }

  /** The greatest of some candidates. */
  method Greatest(cs: seq<Candidate>) returns (i: nat)
    requires cs != []
    ensures i == GreatestOf(cs)
    ensures forall j :: 0 <= j < |cs| ==> !Before(cs[j], cs[i])
  {
    hide Before;
    i := 0;
    for j := 1 to |cs|
      invariant i < j && i == GreatestOf(cs[..j])
    {
      assert cs[..j + 1][..j] == cs[..j];
      if Before(cs[j], cs[i]) {
        i := j;
      }
    }
    assert cs[..|cs|] == cs;
    GreatestIs(cs);
  }

  datatype Release = Release(identity: Identity, descriptor: Descriptor, entries: Names)

  predicate HasChild(found: Names, name: string, kind: Kind) {
    name in found && found[name].kind == kind && found[name].id > 0
  }

  /** A metadata file, of the size that the listing announced. */
  function Metadata(serve: Service, asked: seq<Request>, entry: Entry, limit: int): Got<Bytes> {
    if !(0 < entry.size <= limit) then Got(None, asked)
    else
      var now := asked + [Fetch(entry.id)];
      match serve(now)
      case Data(bytes) => Got(if |bytes| == entry.size then Some(bytes) else None, now)
      case _ => Got(None, now)
  }

  method Download(share: Remote, entry: Entry, limit: int) returns (r: Option<Bytes>)
    modifies share`asked
    ensures Got(r, share.asked) == Metadata(share.serve, old(share.asked), entry, limit)
  {
    if !(0 < entry.size <= limit) {
      return None;
    }
    var reply := share.Ask(Fetch(entry.id));
    r := if reply.Data? && |reply.bytes| == entry.size then Some(reply.bytes) else None;
  }

  /** What makes a release acceptable: a signed, well-formed descriptor that agrees with the
      folder's name and is not below the floor. */
  ghost predicate Authentic(identity: Identity, d: Descriptor, c: Candidate, floor: Floor) {
    && (exists text, bundle ::
      PublisherAccepts(text, bundle) && DecodeDescriptor(text) == Some(d) && identity.digest == ObjectName(text))
    && DescriptorValid(d) && d.sequence == c.sequence && d.commit == c.commit
    && identity.sequence == c.sequence && identity.commit == c.commit && AboveFloor(identity, floor)
  }

  const DESCRIPTOR := "delivery.json"
  const ATTESTATION := "delivery-attestation.jsonl"

  /** What two metadata files amount to, as the release of a candidate. */
  function ReleaseFrom(text: Bytes, bundle: Bytes, c: Candidate, entries: Names, floor: Floor): Option<Release> {
    if !PublisherAccepts(text, bundle) then None
    else match DecodeDescriptor(text)
      case None => None
      case Some(d) =>
        var identity := Identity(c.sequence, c.commit, ObjectName(text));
        if DescriptorValid(d) && d.sequence == c.sequence && d.commit == c.commit && AboveFloor(identity, floor)
        then Some(Release(identity, d, entries)) else None
  }

  /** One complete candidate, examined: it is taken, or the whole run fails. */
  function Examined(serve: Service, asked: seq<Request>, c: Candidate, entries: Names, floor: Floor): Got<Release> {
    if !HasChild(entries, DESCRIPTOR, Document) then Got(None, asked)
    else
      var text := Metadata(serve, asked, entries[DESCRIPTOR], MAX_DESCRIPTOR);
      if text.value == None || !HasChild(entries, ATTESTATION, Document) then Got(None, text.asked)
      else
        var bundle := Metadata(serve, text.asked, entries[ATTESTATION], MAX_METADATA);
        if bundle.value == None then Got(None, bundle.asked)
        else Got(ReleaseFrom(text.value.value, bundle.value.value, c, entries, floor), bundle.asked)
  }

  lemma ExaminedIsAuthentic(serve: Service, asked: seq<Request>, c: Candidate, entries: Names, floor: Floor)
    ensures var r := Examined(serve, asked, c, entries, floor).value;
      r.Some? ==> Authentic(r.value.identity, r.value.descriptor, c, floor) && r.value.entries == entries
  {
    hide DescriptorValid, AboveFloor, HasChild;
  }

  method Examine(share: Remote, c: Candidate, entries: Names, floor: Floor) returns (r: Option<Release>)
    modifies share`asked
    ensures Got(r, share.asked) == Examined(share.serve, old(share.asked), c, entries, floor)
    ensures r.Some? ==> Authentic(r.value.identity, r.value.descriptor, c, floor) && r.value.entries == entries
  {
    hide DescriptorValid, AboveFloor, Authentic, Metadata;
    ExaminedIsAuthentic(share.serve, share.asked, c, entries, floor);
    if !HasChild(entries, DESCRIPTOR, Document) {
      return None;
    }
    var text := Download(share, entries[DESCRIPTOR], MAX_DESCRIPTOR);
    if text == None || !HasChild(entries, ATTESTATION, Document) {
      return None;
    }
    var bundle := Download(share, entries[ATTESTATION], MAX_METADATA);
    if bundle == None || !PublisherAccepts(text.value, bundle.value) {
      return None;
    }
    var decoded := DecodeDescriptor(text.value);
    if decoded == None || !DescriptorValid(decoded.value) {
      return None;
    }
    var d := decoded.value;
    if d.sequence != c.sequence || d.commit != c.commit {
      return None;
    }
    var identity := Identity(c.sequence, c.commit, ObjectName(text.value));
    if !AboveFloor(identity, floor) {
      return None;
    }
    r := Some(Release(identity, d, entries));
  }

  /** Every greater candidate of the listing turned out to have no descriptor. */
  ghost predicate GreatestComplete(master: Names, folders: map<string, Names>, c: Candidate) {
    && c.folder.name in master && master[c.folder.name] == c.folder && CandidateEntry(c.folder)
      && CandidateOf(c.folder) == c
    && c.folder.name in folders && "delivery.json" in folders[c.folder.name]
    && forall n :: n in master && CandidateEntry(master[n]) && Before(CandidateOf(master[n]), c) ==>
         n in folders && "delivery.json" !in folders[n]
  }

  /** The candidates not tried yet are exactly those that were not found incomplete. */
  ghost predicate Untried(master: Names, folders: map<string, Names>, rest: seq<Candidate>) {
    && (forall c :: c in rest ==>
          c.folder.name in master && master[c.folder.name] == c.folder && CandidateEntry(c.folder)
            && CandidateOf(c.folder) == c)
    && (forall n :: n in master && CandidateEntry(master[n]) ==>
          CandidateOf(master[n]) in rest || (n in folders && "delivery.json" !in folders[n]))
  }

  /** The candidates, greatest first. One without a descriptor is passed over; the first one
      with a descriptor decides. */
  function Tried(serve: Service, asked: seq<Request>, rest: seq<Candidate>, floor: Floor): Got<Release>
    decreases |rest|
  {
    if rest == [] then Got(None, asked)
    else
      var i := GreatestOf(rest);
      var c := rest[i];
      if c.sequence < floor.sequence then Got(None, asked)
      else
        var listed := FolderOf(serve, asked, c.folder.id);
        if listed.value == None then Got(None, listed.asked)
        else if DESCRIPTOR in listed.value.value then Examined(serve, listed.asked, c, listed.value.value, floor)
        else Tried(serve, listed.asked, rest[..i] + rest[i + 1..], floor)
  }

  method TryCandidates(share: Remote, ghost master: Names, candidates: seq<Candidate>, floor: Floor)
    returns (r: Option<Release>, ghost folders: map<string, Names>, ghost chosen: Option<Candidate>)
    requires Named(master) && Untried(master, map[], candidates)
    modifies share`asked
    ensures Got(r, share.asked) == Tried(share.serve, old(share.asked), candidates, floor)
    ensures r.Some? ==> chosen.Some? && GreatestComplete(master, folders, chosen.value)
    ensures r.Some? ==> Authentic(r.value.identity, r.value.descriptor, chosen.value, floor)
  {
    hide ReleaseName, Authentic, Before, Examined, GreatestOf, FolderOf, GreatestComplete;
    var rest := candidates;
    folders, chosen := map[], None;
    while rest != []
      invariant Untried(master, folders, rest)
      invariant Tried(share.serve, old(share.asked), candidates, floor) ==
        Tried(share.serve, share.asked, rest, floor)
      decreases |rest|
    {
      var i := Greatest(rest);
      var c := rest[i];
      CandidateIds(master, folders, rest, i);
      if c.sequence < floor.sequence {
        return None, folders, None;
      }
      var entries := Children(share, c.folder.id);
      if entries == None {
        return None, folders, None;
      }
      if DESCRIPTOR in entries.value {
        r := Examine(share, c, entries.value, floor);
        GreatestFound(master, folders, rest, i, entries.value);
        folders, chosen := folders[c.folder.name := entries.value], Some(c);
        return;
      }
      IncompleteDropped(master, folders, rest, i, entries.value);
      folders := folders[c.folder.name := entries.value];
      rest := rest[..i] + rest[i + 1..];
    }
    r := None;
  }

  lemma CandidateIds(master: Names, folders: map<string, Names>, rest: seq<Candidate>, i: nat)
    requires Named(master) && Untried(master, folders, rest) && i < |rest|
    ensures rest[i].folder.id > 0
  {
    hide ReleaseName;
    assert rest[i] in rest;
  }

  lemma GreatestFound(master: Names, folders: map<string, Names>, rest: seq<Candidate>, i: nat, entries: Names)
    requires Untried(master, folders, rest) && i < |rest| && "delivery.json" in entries
    requires forall j :: 0 <= j < |rest| ==> !Before(rest[j], rest[i])
    ensures GreatestComplete(master, folders[rest[i].folder.name := entries], rest[i])
  {
    hide ReleaseName, Before;
    var c := rest[i];
    assert c in rest;
    BeforeOrder(c, c, c);
    forall n | n in master && CandidateEntry(master[n]) && Before(CandidateOf(master[n]), c)
      ensures n in folders && "delivery.json" !in folders[n] && n != c.folder.name
    {
      assert CandidateOf(master[n]) !in rest;
    }
  }

  lemma IncompleteDropped(master: Names, folders: map<string, Names>, rest: seq<Candidate>, i: nat, entries: Names)
    requires Named(master) && Untried(master, folders, rest) && i < |rest| && "delivery.json" !in entries
    ensures Untried(master, folders[rest[i].folder.name := entries], rest[..i] + rest[i + 1..])
  {
    hide ReleaseName, EntryValid;
    var c, left := rest[i], rest[..i] + rest[i + 1..];
    assert c in rest;
    forall x | x in rest && x != c ensures x in left {
      var j :| 0 <= j < |rest| && rest[j] == x;
      if j < i { assert left[j] == x; } else { assert left[j - 1] == x; }
    }
    assert forall x :: x in left ==> x in rest;
    forall n | n in master && CandidateEntry(master[n])
      ensures CandidateOf(master[n]) in left ||
        (n in folders[c.folder.name := entries] && "delivery.json" !in folders[c.folder.name := entries][n])
    {
      if CandidateOf(master[n]) == c { assert n == c.folder.name; }
    }
  }

  datatype Discovery = Discovery(release: Release, packageRoot: int)

  /** The folders of the Share, then the candidates among them. */
  function Discovered(serve: Service, asked: seq<Request>, floor: Floor): Got<Discovery> {
    var a := asked + [ShareInfo];
    if serve(a) != Info(Folder) then Got(None, a)
    else
      var top := FolderOf(serve, a, 0);
      if top.value == None || !HasChild(top.value.value, "xDrive-Server", Folder) then Got(None, top.asked)
      else
        var roots := FolderOf(serve, top.asked, top.value.value["xDrive-Server"].id);
        if roots.value == None then Got(None, roots.asked)
        else if !HasChild(roots.value.value, "master", Folder) || !HasChild(roots.value.value, "packages", Folder)
        then Got(None, roots.asked)
        else
          var master := FolderOf(serve, roots.asked, roots.value.value["master"].id);
          if master.value == None then Got(None, master.asked)
          else Chosen(serve, master.asked, master.value.value, roots.value.value["packages"].id, floor)
  }

  function Chosen(serve: Service, asked: seq<Request>, master: Names, packageRoot: int, floor: Floor): Got<Discovery> {
    var candidates := CandidatesOf(master, Listing.Of(master.Keys));
    if candidates == [] || |candidates| > 1000 then Got(None, asked)
    else
      var tried := Tried(serve, asked, candidates, floor);
      Got(if tried.value == None then None else Some(Discovery(tried.value.value, packageRoot)), tried.asked)
  }

  /** `discover_release`. What it takes is authentic and is the greatest candidate that had a
      descriptor; nothing smaller is ever considered after one was found. */
  method DiscoverRelease(share: Remote, floor: Floor)
    returns (r: Option<Discovery>, ghost master: Names, ghost folders: map<string, Names>,
             ghost chosen: Option<Candidate>)
    modifies share`asked
    ensures Got(r, share.asked) == Discovered(share.serve, old(share.asked), floor)
    ensures r.Some? ==>
      && chosen.Some? && GreatestComplete(master, folders, chosen.value) && r.value.packageRoot >= 0
      && Authentic(r.value.release.identity, r.value.release.descriptor, chosen.value, floor)
  {
    hide ReleaseName, Authentic, GreatestComplete, EntryValid, FolderOf, Tried, CandidatesOf;
    master, folders, chosen, r := map[], map[], None, None;
    var kind := share.Ask(ShareInfo);
    if kind != Info(Folder) { return; }
    var top := Children(share, 0);
    if top == None || !HasChild(top.value, "xDrive-Server", Folder) { return; }
    var roots := Children(share, top.value["xDrive-Server"].id);
    if roots == None { return; }
    if !HasChild(roots.value, "master", Folder) || !HasChild(roots.value, "packages", Folder) { return; }
    var listing := Children(share, roots.value["master"].id);
    if listing == None { return; }
    master := listing.value;
    r, folders, chosen := ChooseRelease(share, listing.value, roots.value["packages"].id, floor);
  }

  method ChooseRelease(share: Remote, master: Names, packageRoot: int, floor: Floor)
    returns (r: Option<Discovery>, ghost folders: map<string, Names>, ghost chosen: Option<Candidate>)
    requires Named(master)
    modifies share`asked
    ensures Got(r, share.asked) == Chosen(share.serve, old(share.asked), master, packageRoot, floor)
    ensures r.Some? ==>
      && chosen.Some? && GreatestComplete(master, folders, chosen.value) && r.value.packageRoot == packageRoot
      && Authentic(r.value.release.identity, r.value.release.descriptor, chosen.value, floor)
  {
    hide ReleaseName, Authentic, GreatestComplete, EntryValid, Tried, CandidatesOf;
    r, folders, chosen := None, map[], None;
    var names := Listing.Of(master.Keys);
    CandidatesAre(master, names);
    var candidates := CandidatesOf(master, names);
    if candidates == [] || |candidates| > 1000 { return; }
    var release;
    release, folders, chosen := TryCandidates(share, master, candidates, floor);
    if release.Some? {
      r := Some(Discovery(release.value, packageRoot));
    }
  }

  // ----- staging -----

  /** The directory of a release carries its sequence number and its commit. */
  datatype Directory = Directory(sequence: int, commit: string)

  function DirectoryOf(release: Release): Directory {
    Directory(release.identity.sequence, release.identity.commit)
  }

  /** Where the updater keeps a file. */
  datatype Place = ReleaseFile(directory: Directory, name: string)
    | ReleasePackage(directory: Directory, component: string)
                 | CachedPackage(sha: string, component: string)

  datatype Package = Package(component: string, sha: string, size: int)

  /** Packages lie in a folder named by their digest, under a name that carries its first digits. */
  function PackageName(pkg: Package): string {
    "xdrive-" + pkg.component + "-" + pkg.sha[..if |pkg.sha| < 12 then |pkg.sha| else 12] + ".tar.gz"
  }

  /** The Share lists the package where it belongs, with its signed size. */
  predicate ListsPackage(entries: Names, pkg: Package) {
    HasChild(entries, PackageName(pkg), Document) && entries[PackageName(pkg)].size == pkg.size
  }

  /** Manifest decoding and validation are an oracle: the declared packages, one a component. */
  const ManifestPackages: Bytes -> Option<seq<Package>>

  predicate Matches(bytes: Bytes, size: int, sha: string) {
    |bytes| == size && ObjectName(bytes) == sha
  }

  predicate Holds(files: map<Place, Bytes>, p: Place, size: int, sha: string) {
    p in files && Matches(files[p], size, sha)
  }

  /** What an attempt to put files in place left, and all requests up to then. */
  datatype Put = Put(ok: bool, files: map<Place, Bytes>, asked: seq<Request>)

  /** A cached file that matches is kept; anything else is replaced by a download that matches,
      or removed. */
  function Fetched(serve: Service, asked: seq<Request>, files: map<Place, Bytes>, node: int, place: Place, size: int,
      sha: string): Put
  {
    if !(0 < size <= MAX_PACKAGE) || !ShaValid(sha) then Put(false, files, asked)
    else if Holds(files, place, size, sha) then Put(true, files, asked)
    else
      var now := asked + [Fetch(node)];
      match serve(now)
      case Data(bytes) =>
        if Matches(bytes, size, sha) then Put(true, files[place := bytes], now) else Put(false, files - {place}, now)
      case _ => Put(false, files - {place}, now)
  }

  /** One signed artifact of the release folder. */
  function ArtifactPut(serve: Service, asked: seq<Request>, files: map<Place, Bytes>, release: Release,
      a: Artifact): Put
  {
    if !HasChild(release.entries, a.name, Document) || release.entries[a.name].size != a.size
    then Put(false, files, asked)
    else
      Fetched(serve, asked, files, release.entries[a.name].id, ReleaseFile(DirectoryOf(release), a.name), a.size, a.sha)
  }

  /** A verified package is put beside the manifest. */
  function Linked(files: map<Place, Bytes>, release: Release, pkg: Package): map<Place, Bytes> {
    var cached, target := CachedPackage(pkg.sha, pkg.component), ReleasePackage(DirectoryOf(release), pkg.component);
    if Holds(files, target, pkg.size, pkg.sha) || cached !in files then files else files[target := files[cached]]
  }

  /** One package: listed under its digest, verified into the cache, then put beside the manifest. */
  function PackagePut(serve: Service, asked: seq<Request>, files: map<Place, Bytes>, release: Release, folders: Names,
      pkg: Package): Put
  {
    if !HasChild(folders, pkg.sha, Folder) then Put(false, files, asked)
    else
      var listed := FolderOf(serve, asked, folders[pkg.sha].id);
      if listed.value == None || !ListsPackage(listed.value.value, pkg) then Put(false, files, listed.asked)
      else
        var put := Fetched(serve, listed.asked, files, listed.value.value[PackageName(pkg)].id,
          CachedPackage(pkg.sha, pkg.component), pkg.size, pkg.sha);
        if !put.ok then put else Put(true, Linked(put.files, release, pkg), put.asked)
  }

  /** The packages in their order, up to the first failure. */
  function PackagesPut(serve: Service, asked: seq<Request>, files: map<Place, Bytes>, release: Release, folders: Names,
      packages: seq<Package>): Put
    decreases |packages|
  {
    if packages == [] then Put(true, files, asked)
    else
      var put := PackagePut(serve, asked, files, release, folders, packages[0]);
      if !put.ok then put else PackagesPut(serve, put.asked, put.files, release, folders, packages[1..])
  }

  /** Everything that the installer will read: manifest, installer, then the declared packages. */
  function Prepared(serve: Service, asked: seq<Request>, files: map<Place, Bytes>, found: Discovery): Put {
    var release := found.release;
    var d := release.descriptor;
    var m := ArtifactPut(serve, asked, files, release, d.manifest);
    if !m.ok then m
    else
      var i := ArtifactPut(serve, m.asked, m.files, release, d.installer);
      if !i.ok then i
      else
        var declared := DeclaredIn(i.files, release);
        if declared == None then Put(false, i.files, i.asked)
        else
          var folders := FolderOf(serve, i.asked, found.packageRoot);
          if folders.value == None then Put(false, i.files, folders.asked)
          else PackagesPut(serve, folders.asked, i.files, release, folders.value.value, declared.value)
  }

  /** The packages that the staged manifest declares, one a component. */
  function DeclaredIn(files: map<Place, Bytes>, release: Release): Option<seq<Package>> {
    var place := ReleaseFile(DirectoryOf(release), release.descriptor.manifest.name);
    if place !in files then None
    else match ManifestPackages(files[place])
      case None => None
      case Some(packages) => if DistinctComponents(packages) then Some(packages) else None
  }

  /** What one run did to the records on disk. */
  datatype Outcome = Nothing | Recorded(identity: Identity) | Installed(identity: Identity)

  function AfterRun(local: Local, o: Outcome): Local {
    match o
    case Nothing => local
    case Recorded(i) => local.(highWater := Some(i))
    case Installed(i) => Local(Some(i), Some(i))
  }

  /** What a run may record: an identity that is not below the floor it read. */
  predicate Allowed(local: Local, initial: Floor, o: Outcome) {
    !o.Nothing? ==>
      ReadFloor(local, initial).Some? && IdentityValid(o.identity)
        && AboveFloor(o.identity, ReadFloor(local, initial).value)
  }

  ghost predicate OthersKept(before: map<Place, Bytes>, after: map<Place, Bytes>, places: set<Place>) {
    forall p :: p !in places ==> (p in after <==> p in before) && (p in after ==> after[p] == before[p])
  }

  class Updater {
    var local: Local
    var files: map<Place, Bytes>

    constructor (l: Local)
      ensures local == l && files == map[]
    {
      local, files := l, map[];
    }

    /** `download_verified_file`. It succeeds exactly if the file was there already or the one
        answer it asks for delivers it. */
    method DownloadVerified(share: Remote, node: int, place: Place, size: int, sha: string) returns (ok: bool)
      modifies this`files, share`asked
      ensures Put(ok, files, share.asked) == Fetched(share.serve, old(share.asked), old(files), node, place, size, sha)
      ensures ok ==> Holds(files, place, size, sha)
      ensures ok <==>
        && 0 < size <= MAX_PACKAGE && ShaValid(sha)
        && (Holds(old(files), place, size, sha) || Delivers(share.serve(old(share.asked) + [Fetch(node)]), size, sha))
      ensures !ok && 0 < size <= MAX_PACKAGE && ShaValid(sha) ==> place !in files
      ensures OthersKept(old(files), files, {place})
    {
      if !(0 < size <= MAX_PACKAGE) || !ShaValid(sha) {
        return false;
      }
      if place in files {
        if Matches(files[place], size, sha) {
          return true;
        }
        files := files - {place};
      }
      var reply := share.Ask(Fetch(node));
      if !reply.Data? || !Matches(reply.bytes, size, sha) {
        assert files == old(files) - {place};
        return false;
      }
      files := files[place := reply.bytes];
      assert files == old(files)[place := reply.bytes];
      ok := true;
    }

    /** One signed artifact of the release folder. */
    method FetchArtifact(share: Remote, release: Release, a: Artifact) returns (ok: bool)
      modifies this`files, share`asked
      ensures Put(ok, files, share.asked) == ArtifactPut(share.serve, old(share.asked), old(files), release, a)
      ensures ok <==> ArtifactThere(share.serve, old(share.asked), old(files), release, a)
      ensures ok ==> Holds(files, ReleaseFile(DirectoryOf(release), a.name), a.size, a.sha)
      ensures OthersKept(old(files), files, {ReleaseFile(DirectoryOf(release), a.name)})
    {
      if !HasChild(release.entries, a.name, Document) || release.entries[a.name].size != a.size {
        return false;
      }
      var place := ReleaseFile(DirectoryOf(release), a.name);
      ok := DownloadVerified(share, release.entries[a.name].id, place, a.size, a.sha);
    }

    /** One package: listed under its digest, verified into the cache, then put beside the manifest. */
    method FetchPackage(share: Remote, release: Release, folders: Names, pkg: Package) returns (ok: bool)
      modifies this`files, share`asked
      ensures Put(ok, files, share.asked) ==
        PackagePut(share.serve, old(share.asked), old(files), release, folders, pkg)
      ensures ok <==> PackageThere(share.serve, old(share.asked), old(files), folders, pkg)
      ensures ok ==> Holds(files, ReleasePackage(DirectoryOf(release), pkg.component), pkg.size, pkg.sha)
      ensures OthersKept(old(files), files,
        {CachedPackage(pkg.sha, pkg.component), ReleasePackage(DirectoryOf(release), pkg.component)})
    {
      hide FolderOf;
      if !HasChild(folders, pkg.sha, Folder) {
        return false;
      }
      var entries := Children(share, folders[pkg.sha].id);
      if entries == None || !ListsPackage(entries.value, pkg) {
        return false;
      }
      var cached, target := CachedPackage(pkg.sha, pkg.component), ReleasePackage(DirectoryOf(release), pkg.component);
      ok := DownloadVerified(share, entries.value[PackageName(pkg)].id, cached, pkg.size, pkg.sha);
      if !ok {
        return;
      }
      if target !in files || !Matches(files[target], pkg.size, pkg.sha) {
        files := files[target := files[cached]];
      }
    }

    /** Every file that the installer will read is the signed one. */
    ghost predicate Staged(release: Release, packages: seq<Package>)
      reads this`files
    {
      var dir, d := DirectoryOf(release), release.descriptor;
      && Holds(files, ReleaseFile(dir, d.manifest.name), d.manifest.size, d.manifest.sha)
      && Holds(files, ReleaseFile(dir, d.installer.name), d.installer.size, d.installer.sha)
      && ManifestPackages(files[ReleaseFile(dir, d.manifest.name)]) == Some(packages)
      && forall i :: 0 <= i < |packages| ==>
           Holds(files, ReleasePackage(dir, packages[i].component), packages[i].size, packages[i].sha)
    }

    /** The declared packages, one after another. */
    method FetchPackages(share: Remote, release: Release, folders: Names, packages: seq<Package>) returns (ok: bool)
      requires DistinctComponents(packages)
      modifies this`files, share`asked
      ensures Put(ok, files, share.asked) ==
        PackagesPut(share.serve, old(share.asked), old(files), release, folders, packages)
      ensures ok ==> forall i :: 0 <= i < |packages| ==>
        Holds(files, ReleasePackage(DirectoryOf(release), packages[i].component), packages[i].size, packages[i].sha)
      ensures forall p: Place :: p.ReleaseFile? ==>
        (p in files <==> p in old(files)) && (p in files ==> files[p] == old(files)[p])
    {
      hide HasChild, Matches, Named, PackagePut;
      ghost var dir := DirectoryOf(release);
      for i := 0 to |packages|
        invariant PackagesPut(share.serve, old(share.asked), old(files), release, folders, packages) ==
          PackagesPut(share.serve, share.asked, files, release, folders, packages[i..])
        invariant forall j :: 0 <= j < i ==>
          Holds(files, ReleasePackage(dir, packages[j].component), packages[j].size, packages[j].sha)
        invariant forall p: Place :: p.ReleaseFile? ==>
          (p in files <==> p in old(files)) && (p in files ==> files[p] == old(files)[p])
      {
        assert packages[i..][0] == packages[i] && packages[i..][1..] == packages[i + 1..];
        ok := FetchPackage(share, release, folders, packages[i]);
        if !ok { return; }
      }
      ok := true;
    }

    /** `prepare_release`. */
    method PrepareRelease(share: Remote, found: Discovery) returns (ok: bool, packages: seq<Package>)
      requires DescriptorValid(found.release.descriptor) && found.packageRoot >= 0
      modifies this`files, share`asked
      ensures Put(ok, files, share.asked) == Prepared(share.serve, old(share.asked), old(files), found)
      ensures ok ==> Staged(found.release, packages)
    {
      hide HasChild, Matches, FolderOf, Named, ArtifactPut, PackagesPut;
      packages := [];
      var release := found.release;
      var dir, d := DirectoryOf(release), release.descriptor;
      ok := FetchArtifact(share, release, d.manifest);
      if !ok { return; }
      ok := FetchArtifact(share, release, d.installer);
      if !ok { return; }
      var declared := ManifestPackages(files[ReleaseFile(dir, d.manifest.name)]);
      if declared == None || !DistinctComponents(declared.value) {
        return false, packages;
      }
      packages := declared.value;
      var folders := Children(share, found.packageRoot);
      if folders == None {
        return false, packages;
      }
      ok := FetchPackages(share, release, folders.value, packages);
    }

    /** `update`: discover, record the identity, stage, install, record the installation. The
        run may stop at any of these points. */
    method Update(share: Remote, initial: Floor, prefetchOnly: bool, installs: bool)
      returns (o: Outcome, ghost packages: seq<Package>, ghost found: Option<Discovery>, ghost staged: bool)
      modifies this, share`asked
      ensures Allowed(old(local), initial, o) && local == AfterRun(old(local), o)
      // what the floor, the Share and the files lead to
      ensures found == (match ReadFloor(old(local), initial)
                        case None => None
                        case Some(floor) => Discovered(share.serve, old(share.asked), floor).value)
      ensures found.Some? ==>
        var asked := Discovered(share.serve, old(share.asked), ReadFloor(old(local), initial).value).asked;
        Put(staged, files, share.asked) == Prepared(share.serve, asked, old(files), found.value)
      ensures staged ==> found.Some? && Staged(found.value.release, packages)
      // and what the run makes of it
      ensures o.Nothing? <==> found == None
      ensures o.Installed? <==> found.Some? && staged && installs && !prefetchOnly
      ensures !o.Nothing? ==> o.identity == found.value.release.identity
    {
      hide GreatestComplete, AboveFloor, CommitName, Discovered, Prepared, Staged;
      packages, found, staged := [], None, false;
      var floor := ReadFloor(local, initial);
      if floor == None {
        return Nothing, packages, found, staged;
      }
      ghost var master, folders, chosen;
      var discovery;
      discovery, master, folders, chosen := DiscoverRelease(share, floor.value);
      found := discovery;
      if discovery == None {
        return Nothing, packages, found, staged;
      }
      var identity := discovery.value.release.identity;
      local := local.(highWater := Some(identity));
      var ready, declared := PrepareRelease(share, discovery.value);
      packages, staged := declared, ready;
      if !ready || prefetchOnly || !installs {
        return Recorded(identity), packages, found, staged;
      }
      local := local.(installed := Some(identity));
      o := Installed(identity);
    }
  }

  /** An answer with the expected bytes. */
  predicate Delivers(reply: Reply, size: int, sha: string) {
    reply.Data? && Matches(reply.bytes, size, sha)
  }

  /** An artifact is listed with its signed size, and cached or delivered. */
  ghost predicate ArtifactThere(serve: Service, asked: seq<Request>, files: map<Place, Bytes>, release: Release,
      a: Artifact)
  {
    && a.name in release.entries
    && var entry := release.entries[a.name];
       && entry.kind == Document && entry.id > 0 && entry.size == a.size
       && 1 <= a.size <= 8_589_934_592 && ShaValid(a.sha)
       && (Holds(files, ReleaseFile(DirectoryOf(release), a.name), a.size, a.sha)
           || Delivers(serve(asked + [Fetch(entry.id)]), a.size, a.sha))
  }

  /** A package is listed in the folder of its digest with its signed size, and cached or delivered. */
  ghost predicate PackageThere(serve: Service, asked: seq<Request>, files: map<Place, Bytes>, folders: Names,
      pkg: Package)
  {
    && ShaValid(pkg.sha) && 1 <= pkg.size <= 8_589_934_592
    && pkg.sha in folders && folders[pkg.sha].kind == Folder && folders[pkg.sha].id > 0
    && var listed := FolderOf(serve, asked, folders[pkg.sha].id);
       && listed.value.Some?
       && PackageListed(serve, listed.asked, files, listed.value.value, pkg)
  }

  ghost predicate PackageListed(serve: Service, asked: seq<Request>, files: map<Place, Bytes>, entries: Names,
      pkg: Package)
    requires ShaValid(pkg.sha)
  {
    var name := "xdrive-" + pkg.component + "-" + pkg.sha[..12] + ".tar.gz";
    && name in entries && entries[name].kind == Document && entries[name].id > 0 && entries[name].size == pkg.size
    && (Holds(files, CachedPackage(pkg.sha, pkg.component), pkg.size, pkg.sha)
        || Delivers(serve(asked + [Fetch(entries[name].id)]), pkg.size, pkg.sha))
  }

  predicate DistinctComponents(packages: seq<Package>) {
    forall i, j :: 0 <= i < j < |packages| ==> packages[i].component != packages[j].component
  }

  // ----- many runs -----

  function AfterRuns(local: Local, runs: seq<Outcome>): Local {
    if runs == [] then local else AfterRun(AfterRuns(local, runs[..|runs| - 1]), runs[|runs| - 1])
  }

  ghost predicate AllAllowed(local: Local, initial: Floor, runs: seq<Outcome>) {
    runs != [] ==>
      && AllAllowed(local, initial, runs[..|runs| - 1])
      && Allowed(AfterRuns(local, runs[..|runs| - 1]), initial, runs[|runs| - 1])
  }

  /** The identities that the runs accepted, in order. */
  function Accepted(runs: seq<Outcome>): seq<Identity> {
    if runs == [] then []
    else
      var before, o := Accepted(runs[..|runs| - 1]), runs[|runs| - 1];
      if o.Nothing? then before else before + [o.identity]
  }

  /** No later release is older, and equally numbered ones are the same. */
  ghost predicate NeverBack(h: seq<Identity>) {
    forall i, j :: 0 <= i < j < |h| ==>
      h[i].sequence <= h[j].sequence && (h[i].sequence == h[j].sequence ==> h[i] == h[j])
  }

  lemma FloorTransitive(a: Identity, b: Identity, initial: Floor)
    requires AboveFloor(a, FloorOf(b)) && AboveFloor(b, initial)
    ensures AboveFloor(a, initial)
  {
  }

  /** Whatever the Share answered in each run and wherever each run stopped: accepted releases
      never go back, none is below the configured floor, equal numbers mean equal releases, the
      installed one was once the recorded one and is not newer than it, and the record can
      always be read again. */
  lemma {:induction false} RollbackSafe(initial: Floor, runs: seq<Outcome>)
    requires AllAllowed(Local(None, None), initial, runs)
    ensures var h, local := Accepted(runs), AfterRuns(Local(None, None), runs);
      && NeverBack(h)
      && (forall i :: 0 <= i < |h| ==> AboveFloor(h[i], initial) && IdentityValid(h[i]))
      && local.highWater == (if h == [] then None else Some(h[|h| - 1]))
      && (local.installed.Some? ==>
            local.installed.value in h && local.highWater.Some?
              && local.installed.value.sequence <= local.highWater.value.sequence)
      && ReadFloor(local, initial) == Some(if h == [] then initial else FloorOf(h[|h| - 1]))
  {
    hide CommitName;
    if runs != [] {
      var k := |runs| - 1;
      RollbackSafe(initial, runs[..k]);
      var o, before := runs[k], Accepted(runs[..k]);
      if !o.Nothing? && before != [] {
        FloorTransitive(o.identity, before[|before| - 1], initial);
        NeverBackStep(before, o.identity);
      }
    }
  }

  lemma NeverBackStep(h: seq<Identity>, next: Identity)
    requires NeverBack(h) && h != [] && AboveFloor(next, FloorOf(h[|h| - 1]))
    ensures NeverBack(h + [next])
    ensures forall i :: 0 <= i < |h| ==> h[i].sequence <= next.sequence
  {
    var g := h + [next];
    forall i, j | 0 <= i < j < |g|
      ensures g[i].sequence <= g[j].sequence && (g[i].sequence == g[j].sequence ==> g[i] == g[j])
    {
      if j == |h| && i < |h| - 1 {
        assert h[i].sequence <= h[|h| - 1].sequence;
      }
    }
    forall i | 0 <= i < |h| ensures h[i].sequence <= next.sequence {
      assert g[i].sequence <= g[|h|].sequence;
    }
  }
}
