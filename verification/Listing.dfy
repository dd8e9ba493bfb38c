/** Directory listings: `os.ReadDir` and `sort.Strings` both deliver names in ascending
    byte order, so a listing is a function of the set of names. */
module Listing {

  /** Byte-wise lexicographic order on names. */
  predicate Less(a: string, b: string) {
    b != [] && (a == [] || a[0] < b[0] || (a[0] == b[0] && Less(a[1..], b[1..])))
  }

  lemma {:induction false} LessTotal(a: string, b: string)
    ensures Less(a, b) || a == b || Less(b, a)
    ensures !(Less(a, b) && Less(b, a))
    ensures !Less(a, a)
  {
    if a != [] {
      LessTotal(a[1..], a[1..]);
      if b != [] {
        LessTotal(a[1..], b[1..]);
        assert a == [a[0]] + a[1..] && b == [b[0]] + b[1..];
      }
    }
  }

  lemma {:induction false} LessTrans(a: string, b: string, c: string)
    requires Less(a, b) && Less(b, c)
    ensures Less(a, c)
  {
    if a != [] && a[0] == b[0] && b[0] == c[0] {
      LessTrans(a[1..], b[1..], c[1..]);
    }
  }

  /** A name comes before another if it is a beginning of it, or is smaller at the first place
      where they differ. */
  lemma {:induction false} LessMeaning(a: string, b: string)
    ensures Less(a, b) <==>
      || (|a| < |b| && a == b[..|a|])
      || exists i :: 0 <= i < |a| && i < |b| && a[..i] == b[..i] && a[i] < b[i]
  {
    if a != [] && b != [] {
      LessMeaning(a[1..], b[1..]);
      if a[0] == b[0] {
        SameHead(a, b);
      } else {
        DifferentHead(a, b);
      }
    }
  }

  lemma SameHead(a: string, b: string)
    requires a != [] && b != [] && a[0] == b[0]
    ensures |a| < |b| && a == b[..|a|] <==> |a[1..]| < |b[1..]| && a[1..] == b[1..][..|a[1..]|]
    ensures (exists i :: 0 <= i < |a| && i < |b| && a[..i] == b[..i] && a[i] < b[i]) <==>
      exists i :: 0 <= i < |a[1..]| && i < |b[1..]| && a[1..][..i] == b[1..][..i] && a[1..][i] < b[1..][i]
  {
    assert a == [a[0]] + a[1..] && b == [b[0]] + b[1..];
    if |a| < |b| {
      assert b[..|a|] == [b[0]] + b[1..][..|a| - 1];
      assert b[1..][..|a| - 1] == b[..|a|][1..];
    }
    forall i | 0 <= i < |a[1..]| && i < |b[1..]|
      ensures a[..i + 1] == b[..i + 1] <==> a[1..][..i] == b[1..][..i]
      ensures a[1..][i] == a[i + 1] && b[1..][i] == b[i + 1]
    {
      assert a[..i + 1] == [a[0]] + a[1..][..i] && b[..i + 1] == [b[0]] + b[1..][..i];
      assert a[1..][..i] == a[..i + 1][1..] && b[1..][..i] == b[..i + 1][1..];
    }
    if exists i :: 0 <= i < |a| && i < |b| && a[..i] == b[..i] && a[i] < b[i] {
      var i :| 0 <= i < |a| && i < |b| && a[..i] == b[..i] && a[i] < b[i];
      assert a[1..][i - 1] < b[1..][i - 1];
    }
  }

  lemma DifferentHead(a: string, b: string)
    requires a != [] && b != [] && a[0] != b[0]
    ensures !(|a| < |b| && a == b[..|a|])
    ensures (exists i :: 0 <= i < |a| && i < |b| && a[..i] == b[..i] && a[i] < b[i]) <==> a[0] < b[0]
  {
    forall i | 0 < i < |a| && i < |b| ensures a[..i] != b[..i] { assert a[..i][0] != b[..i][0]; }
    assert a[..0] == b[..0];
    if |a| < |b| { assert b[..|a|][0] == b[0]; }
  }

  ghost predicate Ascending(s: seq<string>) {
    forall i, j :: 0 <= i < j < |s| ==> Less(s[i], s[j])
  }

  predicate IsLeast(x: string, s: set<string>) {
    x in s && forall y :: y in s ==> x == y || Less(x, y)
  }

  lemma {:induction false} LeastExists(s: set<string>) returns (x: string)
    requires s != {}
    ensures IsLeast(x, s)
    decreases |s|
  {
    var y :| y in s;
    if s == {y} {
      x := y;
    } else {
      var z := LeastExists(s - {y});
      LessTotal(y, z);
      if Less(y, z) {
        x := y;
        forall w | w in s ensures x == w || Less(x, w) {
          if w != y && w != z { LessTrans(y, z, w); }
        }
      } else {
        x := z;
      }
    }
  }

  lemma LeastUnique(x: string, y: string, s: set<string>)
    requires IsLeast(x, s) && IsLeast(y, s)
    ensures x == y
  {
    LessTotal(x, y);
  }

  /** The ascending listing of a finite set of names. */
  function Of(s: set<string>): (r: seq<string>)
    ensures |r| == |s|
    ensures forall x :: x in r <==> x in s
    decreases |s|
  {
    if s == {} then [] else
    assert exists x :: IsLeast(x, s) by { var x := LeastExists(s); }
    assert forall x, y :: IsLeast(x, s) && IsLeast(y, s) ==> x == y by {
      forall x, y | IsLeast(x, s) && IsLeast(y, s) ensures x == y { LeastUnique(x, y, s); }
    }
    var x :| x in s && IsLeast(x, s);
    [x] + Of(s - {x})
  }

  lemma {:induction false} OfAscending(s: set<string>)
    ensures Ascending(Of(s))
    decreases |s|
  {
    if s != {} {
      var r := Of(s);
      OfAscending(s - {r[0]});
    }
  }

  lemma TailWithout(a: seq<string>)
    requires Ascending(a) && a != []
    ensures forall x :: x in a[1..] <==> x in a && x != a[0]
  {
    LessTotal(a[0], a[0]);
    forall x | x in a && x != a[0] ensures x in a[1..] {
      var i :| 0 <= i < |a| && a[i] == x;
      assert a[1..][i - 1] == x;
    }
  }

  lemma FirstIsElement(b: seq<string>)
    requires b != []
    ensures exists x :: x in b
  {
    assert b[0] in b;
  }

  /** An ascending sequence is determined by its elements. */
  lemma {:induction false} AscendingUnique(a: seq<string>, b: seq<string>)
    requires Ascending(a) && Ascending(b)
    requires forall x :: x in a <==> x in b
    ensures a == b
  {
    if a == [] {
      if b != [] {
        FirstIsElement(b);
        assert false;
      }
    } else {
      assert a[0] in b;
      assert b[0] in a;
      LessTotal(a[0], b[0]);
      TailWithout(a);
      TailWithout(b);
      AscendingUnique(a[1..], b[1..]);
    }
  }
}
