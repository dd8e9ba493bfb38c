/** What an honest Share leads to: if it lists a complete, authentic release above the floor and
    delivers its files, the updater finds exactly that release and stages it. */
module ShareHonest {
  import opened Wrappers
  import opened Content
  import opened SnapshotNames
  import opened ShareUpdate
  import Listing
  import ObjectIndex

  // ----- release folder names -----

  lemma {:induction false} FirstDigit(n: nat)
    requires n > 0
    ensures ObjectIndex.Decimal(n)[0] != '0'
  {
    if n >= 10 { FirstDigit(n / 10); }
  }

  lemma {:induction false} DigitsAreDecimal(s: string)
    requires s != "" && Digits(s) && s[0] != '0'
    ensures Value(s) > 0 && ObjectIndex.Decimal(Value(s)) == s
  {
    var k := |s| - 1;
    if k > 0 {
      DigitsAreDecimal(s[..k]);
      assert s == s[..k] + [s[k]];
      assert Value(s) / 10 == Value(s[..k]) && Value(s) % 10 == s[k] as int - '0' as int;
    } else {
      assert Value(s[..0]) == 0;
    }
  }

  lemma {:induction false} ValueBelow(s: string)
    requires Digits(s)
    ensures Value(s) < ObjectIndex.Pow10(|s|)
  {
    if s != "" { ValueBelow(s[..|s| - 1]); }
  }

  lemma TenToSixteen()
    ensures ObjectIndex.Pow10(16) == 10_000_000_000_000_000
  {
    assert ObjectIndex.Pow10(5) == 100_000;
    assert ObjectIndex.Pow10(10) == 10_000_000_000 by { assert ObjectIndex.Pow10(7) == 10_000_000; }
    assert ObjectIndex.Pow10(13) == 10_000_000_000_000;
  }

  lemma {:induction false} PowGrows(k: nat, l: nat)
    requires k <= l
    ensures ObjectIndex.Pow10(k) <= ObjectIndex.Pow10(l)
  {
    if k < l { PowGrows(k, l - 1); }
  }

  /** A release folder is named by its sequence number in plain decimal and its commit. */
  lemma ReleaseNameMeaning(name: string, sequence: nat, commit: string)
    ensures ReleaseName(name) == Some((sequence, commit)) <==>
      && 0 < sequence < 10_000_000_000_000_000 && CommitName(commit)
      && name == ObjectIndex.Decimal(sequence) + "-" + commit
  {
    TenToSixteen();
    if ReleaseName(name) == Some((sequence, commit)) {
      var k := |name| - 41;
      DigitsAreDecimal(name[..k]);
      ValueBelow(name[..k]);
      PowGrows(k, 16);
      assert name == name[..k] + "-" + name[k + 1..];
    }
    if 0 < sequence < 10_000_000_000_000_000 && CommitName(commit)
       && name == ObjectIndex.Decimal(sequence) + "-" + commit
    {
      var digits := ObjectIndex.Decimal(sequence);
      FirstDigit(sequence);
      ObjectIndex.DecimalLength(sequence, 16);
      ObjectIndex.DecimalValue(sequence);
      assert name[..|digits|] == digits && name[|digits| + 1..] == commit && name[|digits|] == '-';
    }
  }

  /** What a release must be, clause by clause. */
  lemma AuthenticMeaning(identity: Identity, d: Descriptor, c: Candidate, floor: Floor)
    ensures Authentic(identity, d, c, floor) <==>
      && (exists text, bundle ::
            PublisherAccepts(text, bundle) && DecodeDescriptor(text) == Some(d) && identity.digest == Sha256(Raw(text)))
      && identity.sequence == d.sequence == c.sequence && identity.commit == d.commit == c.commit
      && 0 < d.sequence < 10_000_000_000_000_000
      && |d.commit| == 40 && (forall i :: 0 <= i < 40 ==> '0' <= d.commit[i] <= '9' || 'a' <= d.commit[i] <= 'f')
      && d.manifest.name == "manifest.json" && ShaValid(d.manifest.sha) && 0 < d.manifest.size <= 8_388_608
      && d.installer.name == "xdrive-offline.py" && ShaValid(d.installer.sha) && 0 < d.installer.size <= 8_388_608
      && (d.sequence > floor.sequence
          || (d.sequence == floor.sequence && floor.pinned == Some((identity.commit, identity.digest))))
  {
    hide ShaValid;
    forall text ensures ObjectName(text) == Sha256(Raw(text)) && ObjectName(text) != "" { DigestThere(text); }
  }

  /** The floor that a run starts from: the configured one, until an identity is recorded; the
      record must be well formed and itself not below the configured floor. */
  lemma FloorMeaning(local: Local, initial: Floor)
    ensures local.highWater == None ==> ReadFloor(local, initial) == Some(initial)
    ensures local.highWater.Some? ==>
      var i := local.highWater.value;
      ReadFloor(local, initial) ==
        if 0 < i.sequence < 10_000_000_000_000_000 && ShaValid(i.digest)
           && |i.commit| == 40 && (forall x :: 0 <= x < 40 ==> '0' <= i.commit[x] <= '9' || 'a' <= i.commit[x] <= 'f')
           && (i.sequence > initial.sequence
               || (i.sequence == initial.sequence && initial.pinned == Some((i.commit, i.digest))))
        then Some(Floor(i.sequence, Some((i.commit, i.digest)))) else None
  {
  }

  lemma DigestThere(text: Bytes)
    ensures ObjectName(text) == Sha256(Raw(text)) && ObjectName(text) != ""
  {
    assert ShaValid(ObjectName(text));
  }

  // ----- folders, page by page -----

  /** One page of a folder, and the cursor under which it is asked for. */
  datatype Leaf = Leaf(cursor: int, items: seq<Entry>)

  /** The folders of a Share and the contents of its files, by identifier. */
  datatype Tree = Tree(pages: map<int, seq<Leaf>>, bodies: map<int, Bytes>)

  function Flat(pages: seq<Leaf>): seq<Entry> {
    if pages == [] then [] else Flat(pages[..|pages| - 1]) + pages[|pages| - 1].items
  }

  ghost predicate Wholesome(items: seq<Entry>) {
    && (forall i :: 0 <= i < |items| ==>
          items[i].id > 0 && 1 <= |items[i].name| <= 255 && 0 <= items[i].size <= 8_589_934_592)
    && (forall i, j :: 0 <= i < j < |items| ==> items[i].name != items[j].name)
  }

  ghost predicate Growing(pages: seq<Leaf>) {
    && (forall k, l :: 0 <= k < l < |pages| ==> pages[k].cursor < pages[l].cursor)
    && (forall k :: 0 <= k < |pages| ==> |pages[k].items| <= 100)
  }

  ghost predicate WellPaged(pages: seq<Leaf>) {
    1 <= |pages| <= 100 && pages[0].cursor == 0 && Growing(pages) && Wholesome(Flat(pages))
  }

  /** The entries of some pages, by name. */
  ghost predicate Holding(pages: seq<Leaf>, found: Names) {
    && (forall n :: n in found ==> found[n] in Flat(pages) && found[n].name == n)
    && (forall i :: 0 <= i < |Flat(pages)| ==> Flat(pages)[i].name in found)
  }

  /** A folder lists some entries, each once, in well-formed pages. */
  ghost predicate Shows(tree: Tree, id: int, found: Names) {
    && id in tree.pages && WellPaged(tree.pages[id])
    && Holding(tree.pages[id], found)
  }

  ghost predicate Answers(tree: Tree, q: Request, reply: Reply) {
    match q
    case ShareInfo => reply == Info(Folder)
    case ListChildren(id, cursor) =>
      id in tree.pages ==> forall k :: 0 <= k < |tree.pages[id]| && tree.pages[id][k].cursor == cursor ==>
        reply == Page(tree.pages[id][k].items, NextCursor(tree.pages[id], k))
    case Fetch(node) => node in tree.bodies ==> reply == Data(tree.bodies[node])
  }

  function NextCursor(pages: seq<Leaf>, k: int): int {
    if 0 <= k < |pages| - 1 then pages[k + 1].cursor else 0
  }

  /** A Share that answers from a tree, whatever it was asked before. */
  ghost predicate Serves(serve: Service, tree: Tree) {
    forall now :: now != [] ==> Answers(tree, now[|now| - 1], serve(now))
  }

  lemma {:induction false} EntriesAdded(found: Names, items: seq<Entry>)
    requires Wholesome(items) && forall i :: 0 <= i < |items| ==> items[i].name !in found
    ensures AddEntries(found, items).Some?
  {
    if items != [] {
      var k := |items| - 1;
      EntriesAdded(found, items[..k]);
      PageAdds(found, items[..k], items[k].name);
    }
  }

  lemma {:induction false} AddConcat(found: Names, a: seq<Entry>, b: seq<Entry>)
    ensures AddEntries(found, a).Some? ==> AddEntries(found, a + b) == AddEntries(AddEntries(found, a).value, b)
    ensures AddEntries(found, a) == None ==> AddEntries(found, a + b) == None
  {
    hide EntryValid;
    if b == [] {
      assert a + b == a;
    } else {
      var k := |b| - 1;
      AddConcat(found, a, b[..k]);
      assert (a + b)[..|a + b| - 1] == a + b[..k] && (a + b)[|a + b| - 1] == b[k];
    }
  }

  lemma {:induction false} FlatFront(first: Leaf, rest: seq<Leaf>)
    ensures Flat([first] + rest) == first.items + Flat(rest)
  {
    if rest == [] {
      assert [first] + rest == [first] && [first][..0] == [];
      assert first.items + [] == first.items && [] + first.items == first.items;
    } else {
      var k := |rest| - 1;
      FlatFront(first, rest[..k]);
      assert ([first] + rest)[..|rest|] == [first] + rest[..k];
    }
  }

  /** The Share's answers, page after page. */
  ghost predicate Replied(serve: Service, asked: seq<Request>, id: int, pages: seq<Leaf>)
    decreases |pages|
  {
    pages != [] ==>
      var now := asked + [ListChildren(id, pages[0].cursor)];
      && serve(now) == Page(pages[0].items, if |pages| > 1 then pages[1].cursor else 0)
      && Replied(serve, now, id, pages[1..])
  }

  lemma {:induction false} EntriesWholesome(found: Names, items: seq<Entry>)
    requires AddEntries(found, items).Some?
    ensures Wholesome(items)
  {
    if items != [] {
      var k := |items| - 1;
      EntriesWholesome(found, items[..k]);
      PageAdds(found, items[..k], items[k].name);
      forall i, j | 0 <= i < j < |items| ensures items[i].name != items[j].name {
        assert items[..k][i] == items[i];
        if j < k { assert items[..k][j] == items[j]; }
      }
    }
  }

  /** From these answers on, the listing is what the pages hold. */
  lemma {:induction false} RepliedIsListed(serve: Service, asked: seq<Request>, id: int, pages: seq<Leaf>, found: Names,
      left: nat)
    requires pages != [] && |pages| <= left && pages[0].cursor >= 0 && Growing(pages)
    requires Replied(serve, asked, id, pages) && AddEntries(found, Flat(pages)).Some?
    ensures Pages(serve, asked, id, pages[0].cursor, found, left).value == AddEntries(found, Flat(pages))
    decreases left
  {
    hide AddEntries, AddPage, Pages, Flat;
    var now := asked + [ListChildren(id, pages[0].cursor)];
    PagesStep(serve, asked, id, pages[0].cursor, found, left);
    assert pages == [pages[0]] + pages[1..];
    FlatFront(pages[0], pages[1..]);
    AddConcat(found, pages[0].items, Flat(pages[1..]));
    AddsPage(found, serve(now));
    if |pages| > 1 {
      assert pages[1].cursor > pages[0].cursor;
      RepliedIsListed(serve, now, id, pages[1..], AddEntries(found, pages[0].items).value, left - 1);
    } else {
      NothingMore(found, pages);
    }
  }

  lemma NothingMore(found: Names, pages: seq<Leaf>)
    requires |pages| == 1
    ensures Flat(pages[1..]) == [] && Flat(pages) == pages[0].items
    ensures AddEntries(found, pages[0].items + Flat(pages[1..])) == AddEntries(found, pages[0].items)
  {
    hide AddEntries;
    assert pages[..0] == [];
    assert pages[0].items + [] == pages[0].items && [] + pages[0].items == pages[0].items;
  }

  lemma AddsPage(found: Names, reply: Reply)
    ensures AddPage(found, reply) ==
      if reply.Page? && |reply.items| <= 100 && reply.next >= 0 then AddEntries(found, reply.items) else None
  {
    hide AddEntries;
  }

  /** Whatever was listed came in such pages. */
  lemma {:induction false} ListedIsReplied(serve: Service, asked: seq<Request>, id: int, cursor: int, found: Names,
      left: nat) returns (pages: seq<Leaf>)
    requires Pages(serve, asked, id, cursor, found, left).value.Some?
    ensures 1 <= |pages| <= left && pages[0].cursor == cursor && Growing(pages) && Replied(serve, asked, id, pages)
    ensures Pages(serve, asked, id, cursor, found, left).value == AddEntries(found, Flat(pages))
    decreases left
  {
    hide AddEntries, AddPage, Pages, Flat;
    if left == 0 { NoPagesLeft(serve, asked, id, cursor, found); }
    PagesStep(serve, asked, id, cursor, found, left);
    var now := asked + [ListChildren(id, cursor)];
    AddsPage(found, serve(now));
    var first := Leaf(cursor, serve(now).items);
    if serve(now).next == 0 {
      pages := [first];
      NothingMore(found, pages);
    } else {
      var rest := ListedIsReplied(serve, now, id, serve(now).next, AddPage(found, serve(now)).value, left - 1);
      pages := [first] + rest;
      assert pages[1..] == rest;
      FlatFront(first, rest);
      AddConcat(found, first.items, Flat(rest));
    }
  }

  /** When a folder is listed: exactly if the answers are well-formed pages, at most a hundred
      with at most a hundred entries each, under growing cursors, with valid and distinct names;
      the listing is then what they hold. */
  lemma ListingMeaning(serve: Service, asked: seq<Request>, id: int, found: Names)
    ensures FolderOf(serve, asked, id).value == Some(found) <==>
      exists pages :: WellPaged(pages) && Replied(serve, asked, id, pages) && Holding(pages, found)
  {
    hide AddEntries, Pages, Wholesome, Replied;
    if FolderOf(serve, asked, id).value == Some(found) {
      var pages := ListedIsReplied(serve, asked, id, 0, map[], 100);
      EntriesWholesome(map[], Flat(pages));
      ContentHeld(pages, found);
    }
    if exists pages :: WellPaged(pages) && Replied(serve, asked, id, pages) && Holding(pages, found) {
      var pages :| WellPaged(pages) && Replied(serve, asked, id, pages) && Holding(pages, found);
      EntriesAdded(map[], Flat(pages));
      RepliedIsListed(serve, asked, id, pages, map[], 100);
      SameNames(Flat(pages), found);
    }
  }

  lemma ContentHeld(pages: seq<Leaf>, found: Names)
    requires AddEntries(map[], Flat(pages)) == Some(found)
    ensures Holding(pages, found)
  {
    hide AddEntries;
    var none: Names, items := map[], Flat(pages);
    forall n | n in found ensures found[n] in items && found[n].name == n {
      PageAdds(none, items, n);
      assert n !in none;
      var i :| 0 <= i < |items| && items[i].name == n;
    }
    forall i | 0 <= i < |items| ensures items[i].name in found { PageAdds(none, items, items[i].name); }
  }

  lemma {:induction false} ServedIsReplied(serve: Service, tree: Tree, asked: seq<Request>, id: int, k: nat)
    requires Serves(serve, tree) && id in tree.pages && Growing(tree.pages[id]) && k <= |tree.pages[id]|
    ensures Replied(serve, asked, id, tree.pages[id][k..])
    decreases |tree.pages[id]| - k
  {
    var pages := tree.pages[id];
    if k < |pages| {
      var now := asked + [ListChildren(id, pages[k].cursor)];
      assert Answers(tree, now[|now| - 1], serve(now));
      assert pages[k..][1..] == pages[k + 1..];
      ServedIsReplied(serve, tree, now, id, k + 1);
    }
  }

  /** A folder that an honest Share shows is listed as it is. */
  lemma FolderFound(serve: Service, tree: Tree, asked: seq<Request>, id: int, found: Names)
    requires Serves(serve, tree) && Shows(tree, id, found)
    ensures FolderOf(serve, asked, id).value == Some(found)
  {
    hide Serves, FolderOf, Wholesome;
    var pages := tree.pages[id];
    ServedIsReplied(serve, tree, asked, id, 0);
    assert pages[0..] == pages;
    assert Holding(pages, found);
    ListingMeaning(serve, asked, id, found);
  }

  lemma SameNames(items: seq<Entry>, found: Names)
    requires Wholesome(items) && AddEntries(map[], items).Some?
    requires forall n :: n in found ==> found[n] in items && found[n].name == n
    requires forall i :: 0 <= i < |items| ==> items[i].name in found
    ensures AddEntries(map[], items) == Some(found)
  {
    hide AddEntries, Wholesome;
    var added := AddEntries(map[], items).value;
    forall n ensures n in added <==> n in found { SameName(items, found, n); }
    forall n | n in found ensures added[n] == found[n] { SameName(items, found, n); }
    assert added == found;
  }

  lemma SameName(items: seq<Entry>, found: Names, n: string)
    requires AddEntries(map[], items).Some?
    requires n in found ==> found[n] in items && found[n].name == n
    requires forall i :: 0 <= i < |items| ==> items[i].name in found
    ensures var added := AddEntries(map[], items).value;
      (n in added <==> n in found) && (n in found ==> added[n] == found[n])
  {
    hide AddEntries;
    var none: Names := map[];
    PageAdds(none, items, n);
    assert n !in none;
    if n in found {
      var i :| 0 <= i < |items| && items[i] == found[n];
      assert items[i].name == n;
    }
  }

  lemma ShownIds(tree: Tree, id: int, found: Names)
    requires Shows(tree, id, found)
    ensures forall n :: n in found ==> found[n].id > 0 && found[n].name == n && EntryValid(found[n])
  {
    forall n | n in found ensures found[n].id > 0 && found[n].name == n && EntryValid(found[n]) {
      var items := Flat(tree.pages[id]);
      var i :| 0 <= i < |items| && items[i] == found[n];
    }
  }

  // ----- a complete release -----

  /** A release as a Share offers it: the folders on the way to it, its own folder, its two
      metadata files, and the packages of its manifest. */
  datatype Offer = Offer(
    top: Names, roots: Names, master: Names, packageFolders: Names,
    sequence: nat, commit: string, entries: Names,
    text: Bytes, bundle: Bytes, descriptor: Descriptor, packages: seq<Package>)

  ghost predicate Entered(found: Names, name: string, kind: Kind) {
    name in found && found[name].kind == kind
  }

  /** The Share lists a file under a name and delivers these bytes for it. */
  ghost predicate Carries(tree: Tree, found: Names, name: string, bytes: Bytes) {
    && Entered(found, name, Document) && found[name].size == |bytes|
    && found[name].id in tree.bodies && tree.bodies[found[name].id] == bytes
  }

  /** The descriptor's entry for a file is right about some bytes. */
  ghost predicate Describes(a: Artifact, name: string, bytes: Bytes) {
    a.name == name && a.size == |bytes| && 1 <= |bytes| <= 8_388_608 && a.sha == Sha256(Raw(bytes))
  }

  ghost predicate PackageOffered(tree: Tree, folders: Names, pkg: Package) {
    && 1 <= pkg.size <= 8_589_934_592 && ShaValid(pkg.sha) && Entered(folders, pkg.sha, Folder)
    && exists listing, bytes ::
         && Shows(tree, folders[pkg.sha].id, listing)
         && Carries(tree, listing, "xdrive-" + pkg.component + "-" + pkg.sha[..12] + ".tar.gz", bytes)
         && |bytes| == pkg.size && Sha256(Raw(bytes)) == pkg.sha
  }

  function FolderName(sequence: nat, commit: string): string {
    ObjectIndex.Decimal(sequence) + "-" + commit
  }

  ghost function ReleaseFolders(master: Names): set<string> {
    set n | n in master && master[n].kind == Folder && exists s, c :: IsFolderName(n, s, c)
  }

  ghost predicate IsFolderName(n: string, s: nat, c: string) {
    0 < s < 10_000_000_000_000_000 && CommitName(c) && n == FolderName(s, c)
  }

  /** The way to the release: the folders exist, and every greater release folder is incomplete. */
  ghost predicate Reachable(tree: Tree, o: Offer) {
    && Shows(tree, 0, o.top) && Entered(o.top, "xDrive-Server", Folder)
    && Shows(tree, o.top["xDrive-Server"].id, o.roots)
    && Entered(o.roots, "master", Folder) && Entered(o.roots, "packages", Folder)
    && Shows(tree, o.roots["master"].id, o.master) && |ReleaseFolders(o.master)| <= 1000
    && Shows(tree, o.roots["packages"].id, o.packageFolders)
    && 0 < o.sequence < 10_000_000_000_000_000 && CommitName(o.commit)
    && Entered(o.master, FolderName(o.sequence, o.commit), Folder)
    && Shows(tree, o.master[FolderName(o.sequence, o.commit)].id, o.entries)
    && forall s, c :: Greater(o, s, c) && Entered(o.master, FolderName(s, c), Folder) ==>
         exists found :: Shows(tree, o.master[FolderName(s, c)].id, found) && "delivery.json" !in found
  }

  ghost predicate Greater(o: Offer, s: nat, c: string) {
    && 0 < s < 10_000_000_000_000_000 && CommitName(c)
    && (s > o.sequence || (s == o.sequence && Listing.Less(o.commit, c)))
  }

  /** Its descriptor is signed, well formed, about this release, and not below the floor. */
  ghost predicate Signed(tree: Tree, o: Offer, floor: Floor) {
    && Carries(tree, o.entries, "delivery.json", o.text) && 1 <= |o.text| <= 65_536
    && Carries(tree, o.entries, "delivery-attestation.jsonl", o.bundle) && 1 <= |o.bundle| <= 8_388_608
    && PublisherAccepts(o.text, o.bundle) && DecodeDescriptor(o.text) == Some(o.descriptor)
    && o.descriptor.sequence == o.sequence && o.descriptor.commit == o.commit
    && (o.sequence > floor.sequence
        || (o.sequence == floor.sequence && floor.pinned == Some((o.commit, Sha256(Raw(o.text))))))
  }

  /** All its files are there. */
  ghost predicate Stocked(tree: Tree, o: Offer, manifest: Bytes, installer: Bytes) {
    && Describes(o.descriptor.manifest, "manifest.json", manifest)
    && Carries(tree, o.entries, "manifest.json", manifest)
    && Describes(o.descriptor.installer, "xdrive-offline.py", installer)
    && Carries(tree, o.entries, "xdrive-offline.py", installer)
    && ManifestPackages(manifest) == Some(o.packages)
    && (forall i, j :: 0 <= i < j < |o.packages| ==> o.packages[i].component != o.packages[j].component)
    && forall i :: 0 <= i < |o.packages| ==> PackageOffered(tree, o.packageFolders, o.packages[i])
  }

  // ----- it is discovered -----

  lemma EnteredChild(tree: Tree, id: int, found: Names, name: string, kind: Kind)
    requires Shows(tree, id, found) && Entered(found, name, kind)
    ensures HasChild(found, name, kind)
  {
    hide WellPaged, Flat;
    ShownIds(tree, id, found);
  }

  function BestOf(o: Offer): Candidate
    requires Entered(o.master, FolderName(o.sequence, o.commit), Folder)
  {
    Candidate(o.sequence, o.commit, o.master[FolderName(o.sequence, o.commit)])
  }

  /** A candidate of the listing, by its name. */
  lemma CandidateNamed(master: Names, c: Candidate)
    requires Named(master) && c.folder.name in master && master[c.folder.name] == c.folder && CandidateEntry(c.folder)
    requires CandidateOf(c.folder) == c
    ensures 0 < c.sequence < 10_000_000_000_000_000 && CommitName(c.commit)
    ensures c.folder.name == FolderName(c.sequence, c.commit) && Entered(master, c.folder.name, Folder)
  {
    hide CommitName;
    ReleaseNamed(c.folder.name);
    ReleaseNameMeaning(c.folder.name, c.sequence, c.commit);
  }

  lemma ReleaseNamed(name: string)
    requires ReleaseName(name).Some?
    ensures ReleaseName(name).value.0 >= 0
  {
  }

  /** Every candidate in the list is one of the listing. */
  ghost predicate FromListing(master: Names, rest: seq<Candidate>) {
    forall c :: c in rest ==>
      c.folder.name in master && master[c.folder.name] == c.folder && CandidateEntry(c.folder)
        && CandidateOf(c.folder) == c
  }

  /** The greatest candidate left is the release offered, or a greater one, which is incomplete. */
  lemma GreatestLeft(tree: Tree, o: Offer, rest: seq<Candidate>)
    requires Reachable(tree, o) && Named(o.master) && FromListing(o.master, rest) && BestOf(o) in rest
    ensures var c := rest[GreatestOf(rest)];
      || c == BestOf(o)
      || (c.sequence >= o.sequence && exists found :: Shows(tree, c.folder.id, found) && "delivery.json" !in found)
  {
    hide ReleaseName, CommitName, Shows, Listing.Less, FolderName;
    var c, best := rest[GreatestOf(rest)], BestOf(o);
    assert c in rest;
    GreatestIs(rest);
    var j :| 0 <= j < |rest| && rest[j] == best;
    BeforeOrder(c, best, c);
    CandidateNamed(o.master, c);
    if c.sequence == best.sequence && c.commit == best.commit {
      assert c == best;
    } else {
      assert Before(c, best);
      assert Greater(o, c.sequence, c.commit);
    }
  }

  lemma {:induction false} TriedFinds(serve: Service, tree: Tree, o: Offer, floor: Floor, asked: seq<Request>,
      rest: seq<Candidate>) returns (now: seq<Request>)
    requires Serves(serve, tree) && Reachable(tree, o) && Named(o.master) && o.sequence >= floor.sequence
    requires FromListing(o.master, rest) && BestOf(o) in rest && "delivery.json" in o.entries
    ensures Tried(serve, asked, rest, floor) == Examined(serve, now, BestOf(o), o.entries, floor)
    decreases |rest|
  {
    hide ReleaseName, Serves, Shows, Before, GreatestOf, FolderOf, Examined, Greater, CandidateOf;
    GreatestLeft(tree, o, rest);
    var i := GreatestOf(rest);
    var c := rest[i];
    if c == BestOf(o) {
      FolderFound(serve, tree, asked, c.folder.id, o.entries);
      now := FolderOf(serve, asked, c.folder.id).asked;
    } else {
      var found :| Shows(tree, c.folder.id, found) && "delivery.json" !in found;
      FolderFound(serve, tree, asked, c.folder.id, found);
      var left := rest[..i] + rest[i + 1..];
      StillIn(rest, i, BestOf(o));
      assert forall x :: x in left ==> x in rest;
      now := TriedFinds(serve, tree, o, floor, FolderOf(serve, asked, c.folder.id).asked, left);
    }
  }

  lemma StillIn(rest: seq<Candidate>, i: nat, best: Candidate)
    requires i < |rest| && best in rest && rest[i] != best
    ensures best in rest[..i] + rest[i + 1..]
  {
    var j :| 0 <= j < |rest| && rest[j] == best;
    var left := rest[..i] + rest[i + 1..];
    if j < i { assert left[j] == best; } else { assert left[j - 1] == best; }
  }

  /** A file of the release folder is delivered. */
  lemma MetadataFound(serve: Service, tree: Tree, asked: seq<Request>, found: Names, name: string, bytes: Bytes,
      limit: int)
    requires Serves(serve, tree) && Carries(tree, found, name, bytes) && 1 <= |bytes| <= limit
    ensures Metadata(serve, asked, found[name], limit).value == Some(bytes)
  {
    var now := asked + [Fetch(found[name].id)];
    assert Answers(tree, now[|now| - 1], serve(now));
  }

  function ReleaseOf(o: Offer): Release {
    Release(Identity(o.sequence, o.commit, ObjectName(o.text)), o.descriptor, o.entries)
  }

  lemma ExaminedTakes(serve: Service, tree: Tree, o: Offer, floor: Floor, asked: seq<Request>, manifest: Bytes,
      installer: Bytes)
    requires Serves(serve, tree)
    requires Reachable(tree, o) && Signed(tree, o, floor) && Stocked(tree, o, manifest, installer)
    ensures Examined(serve, asked, BestOf(o), o.entries, floor).value == Some(ReleaseOf(o))
  {
    hide Serves, Shows, FolderName, Greater, Metadata, CommitName, PackageOffered;
    var id := o.master[FolderName(o.sequence, o.commit)].id;
    EnteredChild(tree, id, o.entries, "delivery.json", Document);
    EnteredChild(tree, id, o.entries, "delivery-attestation.jsonl", Document);
    MetadataFound(serve, tree, asked, o.entries, "delivery.json", o.text, MAX_DESCRIPTOR);
    var now := Metadata(serve, asked, o.entries["delivery.json"], MAX_DESCRIPTOR).asked;
    MetadataFound(serve, tree, now, o.entries, "delivery-attestation.jsonl", o.bundle, MAX_METADATA);
    DescriptorFits(o, manifest, installer);
    assert AboveFloor(ReleaseOf(o).identity, floor) by { AboveIs(o, floor); }
  }

  /** Descriptor and bundle are listed with admissible sizes and delivered when asked for, in this order. */
  ghost predicate Presents(serve: Service, asked: seq<Request>, entries: Names, text: Bytes, bundle: Bytes) {
    && "delivery.json" in entries && "delivery-attestation.jsonl" in entries
    && var d, a := entries["delivery.json"], entries["delivery-attestation.jsonl"];
       && d.kind == Document && d.id > 0 && 1 <= d.size <= 65_536
       && a.kind == Document && a.id > 0 && 1 <= a.size <= 8_388_608
       && serve(asked + [Fetch(d.id)]) == Data(text) && |text| == d.size
       && serve(asked + [Fetch(d.id)] + [Fetch(a.id)]) == Data(bundle) && |bundle| == a.size
  }

  /** When a candidate is taken, and as what. */
  lemma ExaminedMeaning(serve: Service, asked: seq<Request>, c: Candidate, entries: Names, floor: Floor, r: Release)
    ensures Examined(serve, asked, c, entries, floor).value == Some(r) <==>
      && r.entries == entries && Authentic(r.identity, r.descriptor, c, floor)
      && exists text, bundle ::
           && Presents(serve, asked, entries, text, bundle) && PublisherAccepts(text, bundle)
           && DecodeDescriptor(text) == Some(r.descriptor) && r.identity.digest == Sha256(Raw(text))
  {
    hide CommitName, AboveFloor, DescriptorValid;
    forall text ensures ObjectName(text) == Sha256(Raw(text)) { DigestThere(text); }
    if Examined(serve, asked, c, entries, floor).value == Some(r) {
      var d := Metadata(serve, asked, entries["delivery.json"], MAX_DESCRIPTOR);
      var a := Metadata(serve, d.asked, entries["delivery-attestation.jsonl"], MAX_METADATA);
      assert Presents(serve, asked, entries, d.value.value, a.value.value);
    }
  }

  lemma DescriptorFits(o: Offer, manifest: Bytes, installer: Bytes)
    requires Describes(o.descriptor.manifest, "manifest.json", manifest)
    requires Describes(o.descriptor.installer, "xdrive-offline.py", installer)
    requires o.descriptor.sequence == o.sequence && o.descriptor.commit == o.commit
    requires 0 < o.sequence < 10_000_000_000_000_000 && CommitName(o.commit)
    ensures DescriptorValid(o.descriptor)
  {
    hide ShaValid, CommitName;
    assert ShaValid(ObjectName(manifest)) && ShaValid(ObjectName(installer));
  }

  lemma AboveIs(o: Offer, floor: Floor)
    requires CommitName(o.commit)
    requires (o.sequence > floor.sequence
        || (o.sequence == floor.sequence && floor.pinned == Some((o.commit, Sha256(Raw(o.text))))))
    ensures AboveFloor(ReleaseOf(o).identity, floor)
  {
    assert ShaValid(ObjectName(o.text));
    assert |ObjectName(o.text)| == 64 && |o.commit| == 40;
  }

  // ----- the list of candidates -----

  lemma CandidateMeaning(n: string)
    ensures ReleaseName(n).Some? <==> exists s, c :: IsFolderName(n, s, c)
  {
    hide CommitName, FolderName;
    if ReleaseName(n).Some? {
      ReleaseNamed(n);
      var (s, c) := ReleaseName(n).value;
      ReleaseNameMeaning(n, s, c);
      assert n == FolderName(s, c) by { FolderNameIs(s, c); }
      assert IsFolderName(n, s, c);
    }
    if exists s, c :: IsFolderName(n, s, c) {
      var s, c :| IsFolderName(n, s, c);
      FolderNameIs(s, c);
      ReleaseNameMeaning(n, s, c);
    }
  }

  lemma FolderNameIs(s: nat, c: string)
    ensures FolderName(s, c) == ObjectIndex.Decimal(s) + "-" + c
  {
  }

  ghost function CandidateSet(found: Names, names: seq<string>): set<string> {
    set n | n in names && n in found && CandidateEntry(found[n])
  }

  lemma CandidateSetStep(found: Names, names: seq<string>)
    requires names != [] && names[|names| - 1] !in names[..|names| - 1]
    ensures var k := |names| - 1;
      |CandidateSet(found, names)| == |CandidateSet(found, names[..k])|
        + if names[k] in found && CandidateEntry(found[names[k]]) then 1 else 0
  {
    hide CandidateEntry;
    var k := |names| - 1;
    assert names == names[..k] + [names[k]];
    if names[k] in found && CandidateEntry(found[names[k]]) {
      assert CandidateSet(found, names) == CandidateSet(found, names[..k]) + {names[k]};
    } else {
      assert CandidateSet(found, names) == CandidateSet(found, names[..k]);
    }
  }

  lemma {:induction false} CandidateCount(found: Names, names: seq<string>)
    requires forall i, j :: 0 <= i < j < |names| ==> names[i] != names[j]
    ensures |CandidatesOf(found, names)| == |CandidateSet(found, names)|
  {
    hide CandidateEntry;
    if names == [] {
      assert CandidateSet(found, names) == {};
    } else {
      CandidateCount(found, names[..|names| - 1]);
      CandidateSetStep(found, names);
    }
  }

  /** The listing's candidates: the release offered is among them, and they are not too many. */
  lemma CandidatesFit(tree: Tree, o: Offer)
    requires Reachable(tree, o)
    ensures Named(o.master)
    ensures var cs := CandidatesOf(o.master, Listing.Of(o.master.Keys));
      BestOf(o) in cs && FromListing(o.master, cs) && 0 < |cs| <= 1000
  {
    hide ReleaseName, CommitName, WellPaged, Listing.Less, CandidatesOf, EntryValid, Listing.Of;
    var names := Listing.Of(o.master.Keys);
    ShownIds(tree, o.roots["master"].id, o.master);
    Listing.OfAscending(o.master.Keys);
    forall i, j | 0 <= i < j < |names| ensures names[i] != names[j] { Listing.LessTotal(names[i], names[j]); }
    CandidatesAre(o.master, names);
    BestIsCandidate(tree, o);
    CandidateCount(o.master, names);
    forall n | n in o.master ensures CandidateEntry(o.master[n]) <==> n in ReleaseFolders(o.master) {
      CandidateMeaning(n);
    }
    assert CandidateSet(o.master, names) == ReleaseFolders(o.master);
  }

  lemma BestIsCandidate(tree: Tree, o: Offer)
    requires Reachable(tree, o) && Named(o.master)
    ensures var n := FolderName(o.sequence, o.commit);
      CandidateEntry(o.master[n]) && CandidateOf(o.master[n]) == BestOf(o) && o.master[n].name == n
  {
    hide CommitName, Shows, ReleaseName, FolderName, Greater;
    FolderNameIs(o.sequence, o.commit);
    ReleaseNameMeaning(FolderName(o.sequence, o.commit), o.sequence, o.commit);
  }

  /** An honest Share's greatest complete release is the one discovered. */
  lemma ReleaseDiscovered(serve: Service, tree: Tree, o: Offer, floor: Floor, asked: seq<Request>, manifest: Bytes,
      installer: Bytes)
    requires Serves(serve, tree)
    requires Reachable(tree, o) && Signed(tree, o, floor) && Stocked(tree, o, manifest, installer)
    ensures Discovered(serve, asked, floor).value == Some(Discovery(ReleaseOf(o), o.roots["packages"].id))
  {
    hide Serves, Shows, FolderOf, Tried, CandidatesOf, Signed, Stocked, CommitName, Greater, FolderName, ReleaseFolders,
      Named, Listing.Of;
    var a := asked + [ShareInfo];
    InfoServed(serve, tree, asked);
    FolderFound(serve, tree, a, 0, o.top);
    EnteredChild(tree, 0, o.top, "xDrive-Server", Folder);
    var b := FolderOf(serve, a, 0).asked;
    var server := o.top["xDrive-Server"].id;
    FolderFound(serve, tree, b, server, o.roots);
    EnteredChild(tree, server, o.roots, "master", Folder);
    EnteredChild(tree, server, o.roots, "packages", Folder);
    var c := FolderOf(serve, b, server).asked;
    FolderFound(serve, tree, c, o.roots["master"].id, o.master);
    ReleaseChosen(serve, tree, o, floor, FolderOf(serve, c, o.roots["master"].id).asked, manifest, installer);
  }

  lemma InfoServed(serve: Service, tree: Tree, asked: seq<Request>)
    requires Serves(serve, tree)
    ensures serve(asked + [ShareInfo]) == Info(Folder)
  {
    var now := asked + [ShareInfo];
    assert Answers(tree, now[|now| - 1], serve(now));
  }

  lemma ReleaseChosen(serve: Service, tree: Tree, o: Offer, floor: Floor, asked: seq<Request>, manifest: Bytes,
      installer: Bytes)
    requires Serves(serve, tree)
    requires Reachable(tree, o) && Signed(tree, o, floor) && Stocked(tree, o, manifest, installer)
    ensures Chosen(serve, asked, o.master, o.roots["packages"].id, floor).value ==
      Some(Discovery(ReleaseOf(o), o.roots["packages"].id))
  {
    hide Serves, Shows, Tried, CandidatesOf, CommitName, Greater, FolderName, ReleaseFolders, Named, Listing.Of,
      Examined, Stocked, FromListing, Reachable;
    CandidatesFit(tree, o);
    var cs := CandidatesOf(o.master, Listing.Of(o.master.Keys));
    var now := TriedFinds(serve, tree, o, floor, asked, cs);
    ExaminedTakes(serve, tree, o, floor, now, manifest, installer);
  }

  // ----- it is staged -----

  /** A file that is there already under a digest is the file of that digest. */
  ghost predicate CacheTells(files: map<Place, Bytes>, bytes: Bytes) {
    forall p :: p in files && ObjectName(files[p]) == ObjectName(bytes) ==> files[p] == bytes
  }

  lemma FileFetched(serve: Service, tree: Tree, asked: seq<Request>, files: map<Place, Bytes>, found: Names,
      name: string, bytes: Bytes, place: Place)
    requires Serves(serve, tree) && Carries(tree, found, name, bytes) && 1 <= |bytes| <= 8_589_934_592
    ensures var put := Fetched(serve, asked, files, found[name].id, place, |bytes|, ObjectName(bytes));
      && put.ok && place in put.files && ObjectName(put.files[place]) == ObjectName(bytes)
      && (CacheTells(files, bytes) ==> put.files[place] == bytes)
      && put.files.Keys == files.Keys + {place} && forall p :: p in files && p != place ==> put.files[p] == files[p]
  {
    var now := asked + [Fetch(found[name].id)];
    assert Answers(tree, now[|now| - 1], serve(now));
    assert ShaValid(ObjectName(bytes));
  }

  lemma ArtifactStaged(serve: Service, tree: Tree, o: Offer, asked: seq<Request>, files: map<Place, Bytes>, id: int,
      a: Artifact, name: string, bytes: Bytes)
    requires Serves(serve, tree) && Shows(tree, id, o.entries)
    requires Describes(a, name, bytes) && Carries(tree, o.entries, name, bytes)
    ensures var put := ArtifactPut(serve, asked, files, ReleaseOf(o), a);
      var place := ReleaseFile(DirectoryOf(ReleaseOf(o)), name);
      && put.ok && place in put.files && (CacheTells(files, bytes) ==> put.files[place] == bytes)
      && put.files.Keys == files.Keys + {place} && forall p :: p in files && p != place ==> put.files[p] == files[p]
  {
    hide Serves, Shows, Fetched, CacheTells;
    EnteredChild(tree, id, o.entries, name, Document);
    FileFetched(serve, tree, asked, files, o.entries, name, bytes, ReleaseFile(DirectoryOf(ReleaseOf(o)), name));
  }

  lemma PackageStaged(serve: Service, tree: Tree, release: Release, asked: seq<Request>, files: map<Place, Bytes>,
      id: int, folders: Names, pkg: Package)
    requires Serves(serve, tree) && Shows(tree, id, folders) && PackageOffered(tree, folders, pkg)
    ensures PackagePut(serve, asked, files, release, folders, pkg).ok
  {
    hide Serves, Shows, Fetched, CacheTells, FolderOf, Linked;
    EnteredChild(tree, id, folders, pkg.sha, Folder);
    var listing, bytes :|
      && Shows(tree, folders[pkg.sha].id, listing)
      && Carries(tree, listing, "xdrive-" + pkg.component + "-" + pkg.sha[..12] + ".tar.gz", bytes)
      && |bytes| == pkg.size && Sha256(Raw(bytes)) == pkg.sha;
    PackageNamed(pkg);
    FolderFound(serve, tree, asked, folders[pkg.sha].id, listing);
    EnteredChild(tree, folders[pkg.sha].id, listing, PackageName(pkg), Document);
    FileFetched(serve, tree, FolderOf(serve, asked, folders[pkg.sha].id).asked, files, listing, PackageName(pkg), bytes,
      CachedPackage(pkg.sha, pkg.component));
  }

  lemma PackageNamed(pkg: Package)
    requires ShaValid(pkg.sha)
    ensures PackageName(pkg) == "xdrive-" + pkg.component + "-" + pkg.sha[..12] + ".tar.gz"
  {
  }

  lemma {:induction false} PackagesStaged(serve: Service, tree: Tree, release: Release, asked: seq<Request>,
      files: map<Place, Bytes>, id: int, folders: Names, packages: seq<Package>)
    requires Serves(serve, tree) && Shows(tree, id, folders)
    requires forall i :: 0 <= i < |packages| ==> PackageOffered(tree, folders, packages[i])
    ensures PackagesPut(serve, asked, files, release, folders, packages).ok
    decreases |packages|
  {
    hide Serves, Shows, PackageOffered, PackagePut;
    if packages != [] {
      PackageStaged(serve, tree, release, asked, files, id, folders, packages[0]);
      var put := PackagePut(serve, asked, files, release, folders, packages[0]);
      PackagesStaged(serve, tree, release, put.asked, put.files, id, folders, packages[1..]);
    }
  }

  lemma ReleaseStaged(serve: Service, tree: Tree, o: Offer, floor: Floor, asked: seq<Request>, files: map<Place, Bytes>,
      manifest: Bytes, installer: Bytes)
    requires Serves(serve, tree) && Reachable(tree, o) && Stocked(tree, o, manifest, installer)
    requires CacheTells(files, manifest)
    ensures Prepared(serve, asked, files, Discovery(ReleaseOf(o), o.roots["packages"].id)).ok
  {
    hide Serves, Shows, ArtifactPut, CacheTells, FolderOf, PackagesPut, PackageOffered, Greater, FolderName, CommitName,
      ReleaseFolders;
    var release, id := ReleaseOf(o), o.master[FolderName(o.sequence, o.commit)].id;
    var d := o.descriptor;
    var dir := DirectoryOf(release);
    ArtifactStaged(serve, tree, o, asked, files, id, d.manifest, "manifest.json", manifest);
    var m := ArtifactPut(serve, asked, files, release, d.manifest);
    ArtifactStaged(serve, tree, o, m.asked, m.files, id, d.installer, "xdrive-offline.py", installer);
    var i := ArtifactPut(serve, m.asked, m.files, release, d.installer);
    FilesApart();
    assert i.files[ReleaseFile(dir, "manifest.json")] == manifest;
    assert DeclaredIn(i.files, release) == Some(o.packages);
    FolderFound(serve, tree, i.asked, o.roots["packages"].id, o.packageFolders);
    PackagesStaged(serve, tree, release, FolderOf(serve, i.asked, o.roots["packages"].id).asked, i.files,
      o.roots["packages"].id, o.packageFolders, o.packages);
  }

  lemma FilesApart()
    ensures "manifest.json" != "xdrive-offline.py"
  {
    assert |"manifest.json"| == 13 && |"xdrive-offline.py"| == 17;
  }

  /** The Share may be asked anything before, and the cache may hold anything: a complete,
      authentic release above the floor is the one that is found, and all of it is staged. So
      `Updater.Update` installs it, unless it is told to prefetch only or the installer fails. */
  lemma HonestShareInstalls(serve: Service, tree: Tree, o: Offer, floor: Floor, asked: seq<Request>,
      files: map<Place, Bytes>, manifest: Bytes, installer: Bytes)
    requires Serves(serve, tree) && CacheTells(files, manifest)
    requires Reachable(tree, o) && Signed(tree, o, floor) && Stocked(tree, o, manifest, installer)
    ensures var found := Discovered(serve, asked, floor);
      && found.value.Some?
      && found.value.value.release.identity == Identity(o.sequence, o.commit, Sha256(Raw(o.text)))
      && Prepared(serve, found.asked, files, found.value.value).ok
  {
    hide Serves, CacheTells, Reachable, Signed, Stocked, Discovered, Prepared;
    ReleaseDiscovered(serve, tree, o, floor, asked, manifest, installer);
    ReleaseStaged(serve, tree, o, floor, Discovered(serve, asked, floor).asked, files, manifest, installer);
  }

  /** Run against such a Share, the updater installs the release that it offers, whatever was
      recorded, cached or asked before. */
  method InstallOffer(updater: Updater, share: Remote, initial: Floor, ghost tree: Tree, ghost o: Offer,
      ghost floor: Floor, ghost manifest: Bytes, ghost installer: Bytes) returns (outcome: Outcome)
    requires ReadFloor(updater.local, initial) == Some(floor)
    requires Serves(share.serve, tree) && CacheTells(updater.files, manifest)
    requires Reachable(tree, o) && Signed(tree, o, floor) && Stocked(tree, o, manifest, installer)
    modifies updater, share`asked
    ensures var identity := Identity(o.sequence, o.commit, Sha256(Raw(o.text)));
      outcome == Installed(identity) && updater.local == Local(Some(identity), Some(identity))
  {
    hide Serves, CacheTells, Reachable, Signed, Stocked, Discovered, Prepared;
    HonestShareInstalls(share.serve, tree, o, floor, share.asked, updater.files, manifest, installer);
    ghost var packages, found, staged;
    outcome, packages, found, staged := updater.Update(share, initial, false, true);
  }
}
