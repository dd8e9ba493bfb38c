/** `legacy.tar`: which member names the walker accepts, and why an accepted archive can
    be extracted into an empty tree. Paths are slash-separated, as on the host. */
module LegacyArchive {
  import opened Content

  const CAS_ROOT := ".xdrive-blobs/sha256"

  // ----- lexical paths -----

  /** The pieces between slashes; never empty. */
  function Split(s: string): (r: seq<string>)
    ensures |r| > 0
    ensures forall i :: 0 <= i < |r| ==> '/' !in r[i]
  {
    if s == [] then [""]
    else
      var rest := Split(s[1..]);
      if s[0] == '/' then [""] + rest
      else [[s[0]] + rest[0]] + rest[1..]
  }

  function Join(parts: seq<string>): string {
    if parts == [] then ""
    else if |parts| == 1 then parts[0]
    else parts[0] + "/" + Join(parts[1..])
  }

  /** The element-by-element step of `filepath.Clean`. */
  function Resolve(parts: seq<string>, stack: seq<string>, rooted: bool): seq<string> {
    if parts == [] then stack
    else
      var p := parts[0];
      var next :=
        if p == "" || p == "." then stack
        else if p == ".." then
          if stack != [] && stack[|stack| - 1] != ".." then stack[..|stack| - 1]
          else if rooted then stack
          else stack + [".."]
        else stack + [p];
      Resolve(parts[1..], next, rooted)
  }

  function Clean(path: string): string {
    var rooted := path != "" && path[0] == '/';
    var text := Join(Resolve(Split(path), [], rooted));
    if rooted then "/" + text else if text == "" then "." else text
  }

  /** `filepath.IsLocal` of a path that is already clean. */
  predicate IsLocal(clean: string) {
    clean != "" && clean[0] != '/' && clean != ".." && !("../" <= clean)
  }

  predicate IsAncestor(q: string, p: string) {
    |q| < |p| && p[..|q|] == q && p[|q|] == '/'
  }

  predicate AtOrBelow(q: string, p: string) {
    p == q || IsAncestor(q, p)
  }

  predicate ProperName(part: string) {
    part != "" && part != "." && part != ".." && '/' !in part
  }

  /** A relative path that names something inside a tree. */
  predicate ProperPath(p: string) {
    forall i :: 0 <= i < |Split(p)| ==> ProperName(Split(p)[i])
  }

  lemma {:induction false} JoinSplit(s: string)
    ensures Join(Split(s)) == s
  {
    if s != [] {
      JoinSplit(s[1..]);
      var rest := Split(s[1..]);
      if s[0] != '/' && |rest| > 1 {
        assert ([[s[0]] + rest[0]] + rest[1..])[1..] == rest[1..];
      }
      if s[0] == '/' {
        assert ([""] + rest)[1..] == rest;
      }
    }
  }

  lemma {:induction false} SplitPiece(a: string)
    requires '/' !in a
    ensures Split(a) == [a]
  {
    if a != [] {
      assert a[0] in a && forall c :: c in a[1..] ==> c in a;
      SplitPiece(a[1..]);
      assert [a[0]] + a[1..] == a;
    }
  }

  lemma {:induction false} SplitConcat(a: string, b: string)
    requires '/' !in a
    ensures Split(a + "/" + b) == [a] + Split(b)
  {
    var s := a + "/" + b;
    if a == [] {
      assert s[1..] == b;
    } else {
      assert a[0] in a && forall c :: c in a[1..] ==> c in a;
      assert [a[0]] + a[1..] == a;
      assert s[1..] == a[1..] + "/" + b;
      SplitConcat(a[1..], b);
    }
  }

  lemma {:induction false} SplitJoin(parts: seq<string>)
    requires parts != [] && forall i :: 0 <= i < |parts| ==> '/' !in parts[i]
    ensures Split(Join(parts)) == parts
  {
    if |parts| == 1 {
      SplitPiece(parts[0]);
    } else {
      SplitJoin(parts[1..]);
      SplitConcat(parts[0], Join(parts[1..]));
    }
  }

  lemma {:induction false} ResolveProper(parts: seq<string>, stack: seq<string>)
    requires forall i :: 0 <= i < |parts| ==> ProperName(parts[i])
    ensures Resolve(parts, stack, false) == stack + parts
  {
    if parts != [] {
      ResolveProper(parts[1..], stack + [parts[0]]);
    }
  }

  /** Without a root, cleaning leaves some `..` and then only proper names. */
  ghost predicate Reduced(stack: seq<string>) {
    exists k :: 0 <= k <= |stack| && ReducedAt(stack, k)
  }

  ghost predicate ReducedAt(stack: seq<string>, k: nat)
    requires k <= |stack|
  {
    (forall i :: 0 <= i < k ==> stack[i] == "..") && (forall i :: k <= i < |stack| ==> ProperName(stack[i]))
  }

  lemma {:induction false} ResolveReduces(parts: seq<string>, stack: seq<string>)
    requires Reduced(stack)
    requires forall i :: 0 <= i < |parts| ==> '/' !in parts[i]
    ensures Reduced(Resolve(parts, stack, false))
  {
    if parts != [] {
      var k :| 0 <= k <= |stack| && ReducedAt(stack, k);
      var p := parts[0];
      if p == "" || p == "." {
        ResolveReduces(parts[1..], stack);
      } else if p == ".." {
        if stack != [] && stack[|stack| - 1] != ".." {
          assert ReducedAt(stack[..|stack| - 1], k);
          ResolveReduces(parts[1..], stack[..|stack| - 1]);
        } else {
          assert ReducedAt(stack + [".."], k + 1);
          ResolveReduces(parts[1..], stack + [".."]);
        }
      } else {
        assert ReducedAt(stack + [p], k);
        ResolveReduces(parts[1..], stack + [p]);
      }
    }
  }

  /** Whatever cleans to a local path other than the tree itself cleans to a proper one. */
  lemma CleanIsProper(path: string)
    requires IsLocal(Clean(path)) && Clean(path) != "."
    ensures ProperPath(Clean(path))
  {
    var parts := Split(path);
    assert ReducedAt([], 0);
    ResolveReduces(parts, []);
    var stack := Resolve(parts, [], false);
    var k :| 0 <= k <= |stack| && ReducedAt(stack, k);
    if k > 0 {
      EscapingHead(stack);
      assert false;
    }
    SplitJoin(stack);
  }

  /** A proper path cleans to itself, with or without a slash at its end. */
  lemma ProperIsClean(p: string)
    requires ProperPath(p)
    ensures Clean(p) == p && Clean(p + "/") == p && IsLocal(p) && p != "."
  {
    var parts := Split(p);
    JoinSplit(p);
    assert ProperName(parts[0]);
    HeadOfJoin(parts);
    ResolveProper(parts, []);
    assert [] + parts == parts;
    SplitAtSlash(p, "");
    assert p + "/" + "" == p + "/";
    ResolveAppend(parts, [""], [], false);
  }

  lemma {:induction false} ResolveAppend(a: seq<string>, b: seq<string>, stack: seq<string>, rooted: bool)
    ensures Resolve(a + b, stack, rooted) == Resolve(b, Resolve(a, stack, rooted), rooted)
  {
    if a == [] {
      assert a + b == b;
    } else {
      assert (a + b)[1..] == a[1..] + b;
      ResolveAppend(a[1..], b,
        if a[0] == "" || a[0] == "." then stack
        else if a[0] == ".." then
          if stack != [] && stack[|stack| - 1] != ".." then stack[..|stack| - 1]
          else if rooted then stack
          else stack + [".."]
        else stack + [a[0]], rooted);
    }
  }

  lemma EscapingHead(stack: seq<string>)
    requires stack != [] && stack[0] == ".."
    ensures !IsLocal(Join(stack))
  {
    if |stack| > 1 {
      assert Join(stack) == "../" + Join(stack[1..]);
    }
  }

  lemma HeadOfJoin(parts: seq<string>)
    requires parts != [] && ProperName(parts[0])
    ensures Join(parts) != "" && Join(parts)[0] != '/' && Join(parts) != ".." && !("../" <= Join(parts))
    ensures Join(parts) != "."
  {
    var text := Join(parts);
    var p := parts[0];
    assert |p| <= |text| && text[..|p|] == p;
    assert forall i :: 0 <= i < |p| ==> text[i] == p[i] && p[i] in p;
    if |parts| > 1 {
      assert text == p + "/" + Join(parts[1..]);
    }
    assert |p| == 2 ==> text[..2] != "..";
    assert |p| >= 3 ==> text[2] != '/';
    assert |p| == 1 && |text| > 1 ==> text[1] == '/';
    var escape := "../";
    assert escape[1] == '.' && escape[2] == '/' && escape[..2] == "..";
  }

  // ----- the walker -----

  function TrimSlash(name: string): string {
    if name != "" && name[|name| - 1] == '/' then name[..|name| - 1] else name
  }

  function LocalName(e: TarEntry): string {
    TrimSlash(e.name)
  }

  /** The checks on one member alone. */
  predicate EntryOk(e: TarEntry) {
    var clean := Clean(e.name);
    && IsLocal(clean) && clean != "." && !AtOrBelow(CAS_ROOT, clean)
    && !e.kind.OtherEntry?
    && TrimSlash(e.name) == clean
    && (e.kind.RegularEntry? ==> TrimSlash(e.name) == e.name)
    && (e.kind.DirectoryEntry? ==> e.data == [])
  }

  /** What those checks amount to: a proper path outside the object tree, written the one
      canonical way for its kind. */
  lemma EntryOkMeaning(e: TarEntry)
    ensures EntryOk(e) <==>
      && ProperPath(LocalName(e)) && !AtOrBelow(CAS_ROOT, LocalName(e))
      && (   (e.kind.RegularEntry? && e.name == LocalName(e))
          || (e.kind.DirectoryEntry? && e.data == [] && (e.name == LocalName(e) || e.name == LocalName(e) + "/")))
  {
    if EntryOk(e) { CleanIsProper(e.name); }
    if ProperPath(LocalName(e)) { ProperIsClean(LocalName(e)); }
  }

  ghost predicate DistinctNames(entries: seq<TarEntry>) {
    forall i, j :: 0 <= i < j < |entries| ==> LocalName(entries[i]) != LocalName(entries[j])
  }

  ghost predicate NoFileAbove(entries: seq<TarEntry>) {
    forall i, j :: 0 <= i < |entries| && 0 <= j < |entries| && entries[i].kind.RegularEntry? ==>
      !IsAncestor(LocalName(entries[i]), LocalName(entries[j]))
  }

  /** What acceptance means, whatever the order of the members. */
  ghost predicate Acceptable(entries: seq<TarEntry>) {
    (forall i :: 0 <= i < |entries| ==> EntryOk(entries[i])) && DistinctNames(entries) && NoFileAbove(entries)
  }

  /** A member that stands for a path: a file spelled exactly so, or an empty directory, with or
      without a slash at its end. */
  ghost predicate StandsFor(e: TarEntry, path: string) {
    && ProperPath(path)
    && path != ".xdrive-blobs/sha256" && !(".xdrive-blobs/sha256/" <= path)
    && match e.kind
       case RegularEntry => e.name == path
       case DirectoryEntry => e.data == [] && (e.name == path || e.name == path + "/")
       case OtherEntry => false
  }

  lemma StandsForIs(e: TarEntry, path: string)
    ensures StandsFor(e, path) <==> EntryOk(e) && path == LocalName(e)
  {
    hide EntryOk, ProperPath;
    EntryOkMeaning(e);
    assert IsAncestor(CAS_ROOT, path) <==> ".xdrive-blobs/sha256/" <= path by {
      var root := ".xdrive-blobs/sha256/";
      assert root == CAS_ROOT + "/";
      if IsAncestor(CAS_ROOT, path) { assert path[..|CAS_ROOT| + 1] == path[..|CAS_ROOT|] + [path[|CAS_ROOT|]]; }
    }
    if ProperPath(path) {
      ProperEnds(path);
      assert (path + "/")[..|path|] == path;
    }
  }

  /** A proper path does not end in a slash. */
  lemma ProperEnds(path: string)
    requires ProperPath(path)
    ensures path != "" && path[|path| - 1] != '/' && TrimSlash(path) == path && TrimSlash(path + "/") == path
  {
    var parts := Split(path);
    JoinSplit(path);
    assert ProperName(parts[0]) && ProperName(parts[|parts| - 1]);
    JoinEnds(parts);
    assert (path + "/")[..|path|] == path;
  }

  lemma {:induction false} JoinEnds(parts: seq<string>)
    requires parts != [] && ProperName(parts[|parts| - 1])
    ensures Join(parts) != "" && Join(parts)[|Join(parts)| - 1] != '/'
  {
    if |parts| == 1 {
      var p := parts[0];
      assert p[|p| - 1] in p;
    } else {
      JoinEnds(parts[1..]);
    }
  }

  /** A proper path joins names of its own with slashes: none is empty, `.` or `..`. */
  lemma ProperMeaning(path: string)
    ensures ProperPath(path) <==>
      exists parts :: parts != [] && path == Join(parts) && forall i :: 0 <= i < |parts| ==>
        parts[i] != "" && parts[i] != "." && parts[i] != ".." && '/' !in parts[i]
  {
    JoinSplit(path);
    if ProperPath(path) { assert forall i :: 0 <= i < |Split(path)| ==> ProperName(Split(path)[i]); }
    forall parts | parts != [] && path == Join(parts) && forall i :: 0 <= i < |parts| ==> '/' !in parts[i]
      ensures Split(path) == parts
    {
      SplitJoin(parts);
    }
  }

  ghost predicate Spelled(entries: seq<TarEntry>, paths: seq<string>) {
    |paths| == |entries| && forall i :: 0 <= i < |entries| ==> StandsFor(entries[i], paths[i])
  }

  /** An archive is acceptable if its members stand for different proper paths outside the object
      tree, and no file lies above another member, in whatever order they come. */
  lemma AcceptableMeaning(entries: seq<TarEntry>)
    ensures Acceptable(entries) <==>
      exists paths :: Spelled(entries, paths)
        && (forall i, j :: 0 <= i < j < |paths| ==> paths[i] != paths[j])
        && (forall i, j :: 0 <= i < |paths| && 0 <= j < |paths| && entries[i].kind.RegularEntry? ==>
              !(paths[i] + "/" <= paths[j]))
  {
    hide EntryOk, StandsFor, LocalName;
    var names := seq(|entries|, i requires 0 <= i < |entries| => LocalName(entries[i]));
    forall i | 0 <= i < |entries| ensures StandsFor(entries[i], names[i]) <==> EntryOk(entries[i]) {
      StandsForIs(entries[i], names[i]);
    }
    forall paths | Spelled(entries, paths) ensures paths == names {
      forall i | 0 <= i < |entries| ensures paths[i] == names[i] { StandsForIs(entries[i], paths[i]); }
    }
    forall i, j | 0 <= i < |names| && 0 <= j < |names|
      ensures names[i] + "/" <= names[j] <==> IsAncestor(names[i], names[j])
    {
      AncestorIsPrefix(names[i], names[j]);
    }
    assert (forall i :: 0 <= i < |entries| ==> EntryOk(entries[i])) <==> Spelled(entries, names);
    assert DistinctNames(entries) <==> forall i, j :: 0 <= i < j < |names| ==> names[i] != names[j];
  }

  lemma AncestorIsPrefix(q: string, p: string)
    ensures q + "/" <= p <==> IsAncestor(q, p)
  {
    if IsAncestor(q, p) { assert p[..|q| + 1] == p[..|q|] + [p[|q|]]; }
  }

  function LastSlash(p: string): (k: int)
    ensures -1 <= k < |p| && (k >= 0 ==> p[k] == '/') && forall i :: k < i < |p| ==> p[i] != '/'
  {
    if p == "" then -1
    else if p[|p| - 1] == '/' then |p| - 1
    else LastSlash(p[..|p| - 1])
  }

  /** `filepath.Dir` of a clean relative path. */
  function ParentName(p: string): string {
    var k := LastSlash(p);
    if k < 0 then "." else p[..k]
  }

  function Ancestors(p: string): set<string> {
    set k | 0 <= k < |p| && p[k] == '/' :: p[..k]
  }

  lemma AncestorsMeaning(p: string)
    ensures forall q :: q in Ancestors(p) <==> IsAncestor(q, p)
  {
    forall q | IsAncestor(q, p) ensures q in Ancestors(p) {
      assert q == p[..|q|];
    }
  }

  ghost predicate Seen(seen: map<string, TarKind>, entries: seq<TarEntry>) {
    && (forall i :: 0 <= i < |entries| ==>
          LocalName(entries[i]) in seen && seen[LocalName(entries[i])] == entries[i].kind)
    && (forall q :: q in seen ==> exists i :: 0 <= i < |entries| && LocalName(entries[i]) == q)
  }

  ghost predicate WithChildren(hasChildren: set<string>, entries: seq<TarEntry>) {
    forall q :: q in hasChildren <==> exists i :: 0 <= i < |entries| && IsAncestor(q, LocalName(entries[i]))
  }

  /** The walk up from a member to the root: no ancestor was seen as a file, and every
      ancestor is marked as having children. */
  method ClimbParents(clean: string, seen: map<string, TarKind>, marked: set<string>)
    returns (hasChildren: set<string>, ok: bool)
    requires ProperPath(clean)
    ensures ok <==> forall q :: q in seen && IsAncestor(q, clean) ==> seen[q].DirectoryEntry?
    ensures ok ==> hasChildren == marked + Ancestors(clean)
  {
    hasChildren := marked;
    AncestorsMeaning(clean);
    var parent := ParentName(clean);
    ghost var depth := LastSlash(clean);
    ClimbStart(clean);
    while parent != "."
      invariant -1 <= depth < |clean|
      invariant depth < 0 <==> parent == "."
      invariant depth >= 0 ==> parent == clean[..depth] && clean[depth] == '/' && ProperPath(parent)
      invariant forall q :: q in hasChildren <==> q in marked || (IsAncestor(q, clean) && |q| > depth)
      invariant forall q :: q in seen && IsAncestor(q, clean) && |q| > depth ==> seen[q].DirectoryEntry?
      decreases depth
    {
      assert IsAncestor(parent, clean);
      if parent in seen && !seen[parent].DirectoryEntry? {
        return hasChildren, false;
      }
      hasChildren := hasChildren + {parent};
      forall q | IsAncestor(q, clean) && |q| == depth ensures q == parent {}
      ClimbStart(parent);
      var up := LastSlash(parent);
      assert forall q :: IsAncestor(q, clean) && |q| < depth ==> parent[|q|] == clean[|q|];
      depth := up;
      parent := ParentName(parent);
    }
    forall q | IsAncestor(q, clean) ensures |q| > depth {}
    ok := true;
  }

  lemma SplitStep(c: char, s: string)
    ensures Split([c] + s) ==
      if c == '/' then [""] + Split(s) else [[c] + Split(s)[0]] + Split(s)[1..]
  {
    assert ([c] + s)[1..] == s;
  }

  lemma SplitNothing()
    ensures Split("") == [""]
  {
  }

  lemma {:induction false} SplitAtSlash(a: string, b: string)
    ensures Split(a + "/" + b) == Split(a) + Split(b)
  {
    hide Split;
    if a == [] {
      SplitNothing();
      assert a + "/" + b == ['/'] + b;
      SplitStep('/', b);
    } else {
      var rest, tail := a[1..], a[1..] + "/" + b;
      assert a + "/" + b == [a[0]] + tail && a == [a[0]] + rest;
      SplitAtSlash(rest, b);
      SplitStep(a[0], tail);
      SplitStep(a[0], rest);
      ConsAppend(a[0], Split(rest), Split(b));
    }
  }

  lemma ConsAppend(c: char, x: seq<string>, y: seq<string>)
    requires x != []
    ensures [""] + (x + y) == ([""] + x) + y
    ensures [[c] + (x + y)[0]] + (x + y)[1..] == ([[c] + x[0]] + x[1..]) + y
  {
    assert (x + y)[1..] == x[1..] + y;
  }

  /** The parent of a proper path is a proper path. */
  lemma ClimbStart(p: string)
    requires ProperPath(p)
    ensures LastSlash(p) < 0 <==> ParentName(p) == "."
    ensures LastSlash(p) >= 0 ==> ProperPath(ParentName(p))
  {
    var k := LastSlash(p);
    if k >= 0 {
      var a, b := p[..k], p[k + 1..];
      assert p == a + "/" + b;
      SplitAtSlash(a, b);
      forall i | 0 <= i < |Split(a)| ensures ProperName(Split(a)[i]) {
        assert Split(p)[i] == Split(a)[i];
      }
      ProperIsClean(a);
    }
  }

  lemma AcceptableStep(before: seq<TarEntry>, e: TarEntry)
    requires Acceptable(before)
    ensures Acceptable(before + [e]) <==>
      && EntryOk(e)
      && (forall i :: 0 <= i < |before| ==> LocalName(before[i]) != LocalName(e))
      && (forall i :: 0 <= i < |before| && before[i].kind.RegularEntry? ==>
        !IsAncestor(LocalName(before[i]), LocalName(e)))
      && (e.kind.RegularEntry? ==> forall i :: 0 <= i < |before| ==> !IsAncestor(LocalName(e), LocalName(before[i])))
  {
    hide EntryOk, IsAncestor, LocalName;
    var all := before + [e];
    assert all[|before|] == e;
    assert forall i :: 0 <= i < |before| ==> all[i] == before[i];
    IsNotOwnAncestor(LocalName(e));
  }

  lemma IsNotOwnAncestor(p: string)
    ensures !IsAncestor(p, p)
  {
  }

  lemma AcceptablePrefix(entries: seq<TarEntry>, n: nat)
    requires n <= |entries| && Acceptable(entries)
    ensures Acceptable(entries[..n])
  {
  }

  /** The archive walker: it accepts exactly the acceptable archives that end intact. */
  method WalkLegacyArchive(entries: seq<TarEntry>, sound: bool) returns (ok: bool)
    ensures ok <==> sound && Acceptable(entries)
  {
    hide Acceptable, Seen, WithChildren;
    var seen: map<string, TarKind> := map[];
    var hasChildren: set<string> := {};
    NothingWalked();
    for i := 0 to |entries|
      invariant Acceptable(entries[..i])
      invariant Seen(seen, entries[..i])
      invariant WithChildren(hasChildren, entries[..i])
    {
      var e := entries[i];
      ghost var before := entries[..i];
      assert entries[..i + 1] == before + [e];
      var admitted, seen', hasChildren' := Admit(before, e, seen, hasChildren);
      if !admitted {
        if Acceptable(entries) { AcceptablePrefix(entries, i + 1); }
        return false;
      }
      seen, hasChildren := seen', hasChildren';
    }
    assert entries[..|entries|] == entries;
    ok := sound;
  }

  lemma NothingWalked()
    ensures Acceptable([]) && Seen(map[], []) && WithChildren({}, [])
  {
  }

  /** One turn of the walker's loop. */
  method Admit(ghost before: seq<TarEntry>, e: TarEntry, seen: map<string, TarKind>, hasChildren: set<string>)
    returns (ok: bool, seen': map<string, TarKind>, hasChildren': set<string>)
    requires Acceptable(before) && Seen(seen, before) && WithChildren(hasChildren, before)
    ensures ok <==> Acceptable(before + [e])
    ensures ok ==> Seen(seen', before + [e]) && WithChildren(hasChildren', before + [e])
  {
    seen', hasChildren' := seen, hasChildren;
    AcceptableStep(before, e);
    var name := LocalName(e);
    if !EntryOk(e) {
      return false, seen', hasChildren';
    }
    EntryOkMeaning(e);
    if name in seen || (!e.kind.DirectoryEntry? && name in hasChildren) {
      return false, seen', hasChildren';
    }
    hasChildren', ok := ClimbParents(name, seen, hasChildren);
    if !ok {
      return;
    }
    AncestorsMeaning(name);
    seen' := seen[name := e.kind];
    TablesGrow(before, e, seen, hasChildren);
  }

  lemma TablesGrow(before: seq<TarEntry>, e: TarEntry, seen: map<string, TarKind>, hasChildren: set<string>)
    requires Seen(seen, before) && WithChildren(hasChildren, before) && LocalName(e) !in seen
    ensures Seen(seen[LocalName(e) := e.kind], before + [e])
    ensures WithChildren(hasChildren + Ancestors(LocalName(e)), before + [e])
  {
    var all := before + [e];
    AncestorsMeaning(LocalName(e));
    assert all[|before|] == e;
    assert forall i :: 0 <= i < |before| ==> all[i] == before[i];
    forall q | q in seen ensures exists i :: 0 <= i < |all| && LocalName(all[i]) == q {
      var i :| 0 <= i < |before| && LocalName(before[i]) == q;
      assert LocalName(all[i]) == q;
    }
    forall q | q in hasChildren ensures exists i :: 0 <= i < |all| && IsAncestor(q, LocalName(all[i])) {
      var i :| 0 <= i < |before| && IsAncestor(q, LocalName(before[i]));
      assert IsAncestor(q, LocalName(all[i]));
    }
  }
}
