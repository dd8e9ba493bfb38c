/** Sums of sizes over sets of names, as loops over directory listings compute them. */
module Sums {
  import opened Repository
  import Listing

  function Filter(names: seq<string>, s: set<string>): seq<string> {
    if names == [] then []
    else
      var last := names[|names| - 1];
      Filter(names[..|names| - 1], s) + (if last in s then [last] else [])
  }

  /** The total size of a set of names. */
  function BytesOf(sizes: map<string, nat>, s: set<string>): nat {
    SumBytes(sizes, Listing.Of(s))
  }

  lemma {:induction false} FilterElements(names: seq<string>, s: set<string>)
    ensures forall x :: x in Filter(names, s) <==> x in names && x in s
  {
    if names != [] {
      var k := |names| - 1;
      FilterElements(names[..k], s);
      assert names == names[..k] + [names[k]];
    }
  }

  lemma {:induction false} FilterAscending(names: seq<string>, s: set<string>)
    requires Listing.Ascending(names)
    ensures Listing.Ascending(Filter(names, s))
  {
    if names != [] {
      var k := |names| - 1;
      FilterAscending(names[..k], s);
      FilterElements(names[..k], s);
      var f := Filter(names[..k], s);
      forall i | 0 <= i < |f| ensures Listing.Less(f[i], names[k]) {
        assert f[i] in names[..k];
      }
    }
  }

  /** Filtering a directory listing lists the selected names. */
  lemma FilterIsListing(all: set<string>, s: set<string>)
    ensures Filter(Listing.Of(all), s) == Listing.Of(all * s)
  {
    Listing.OfAscending(all);
    Listing.OfAscending(all * s);
    FilterAscending(Listing.Of(all), s);
    FilterElements(Listing.Of(all), s);
    Listing.AscendingUnique(Filter(Listing.Of(all), s), Listing.Of(all * s));
  }

  lemma FilterStep(sizes: map<string, nat>, names: seq<string>, s: set<string>, i: nat)
    requires i < |names|
    ensures |Filter(names[..i + 1], s)| == |Filter(names[..i], s)| + if names[i] in s then 1 else 0
    ensures SumBytes(sizes, Filter(names[..i + 1], s)) ==
      SumBytes(sizes, Filter(names[..i], s)) + if names[i] in s then SizeOf(sizes, names[i]) else 0
  {
    assert names[..i + 1][..i] == names[..i];
    var f := Filter(names[..i], s);
    if names[i] in s {
      assert (f + [names[i]])[..|f|] == f;
    } else {
      assert Filter(names[..i + 1], s) == f;
    }
  }

  lemma {:induction false} SumSplits(sizes: map<string, nat>, names: seq<string>, a: set<string>, b: set<string>)
    requires a !! b
    ensures SumBytes(sizes, Filter(names, a + b)) ==
      SumBytes(sizes, Filter(names, a)) + SumBytes(sizes, Filter(names, b))
    ensures |Filter(names, a + b)| == |Filter(names, a)| + |Filter(names, b)|
  {
    if names != [] {
      var k := |names| - 1;
      SumSplits(sizes, names[..k], a, b);
      forall s: set<string> | names[k] in s
        ensures SumBytes(sizes, Filter(names, s)) == SumBytes(sizes, Filter(names[..k], s)) + SizeOf(sizes, names[k])
      {
        var f := Filter(names[..k], s) + [names[k]];
        assert f[..|f| - 1] == Filter(names[..k], s);
      }
      forall s: set<string> | names[k] !in s
        ensures Filter(names, s) == Filter(names[..k], s)
      {
      }
    }
  }

  /** Sizes add up over disjoint sets. */
  lemma BytesSplit(sizes: map<string, nat>, a: set<string>, b: set<string>)
    requires a !! b
    ensures BytesOf(sizes, a + b) == BytesOf(sizes, a) + BytesOf(sizes, b)
    ensures |a + b| == |a| + |b|
  {
    var names := Listing.Of(a + b);
    SumSplits(sizes, names, a, b);
    FilterIsListing(a + b, a);
    FilterIsListing(a + b, b);
    FilterIsListing(a + b, a + b);
    assert (a + b) * a == a && (a + b) * b == b && (a + b) * (a + b) == a + b;
  }

  lemma BytesMonotone(sizes: map<string, nat>, a: set<string>, b: set<string>)
    requires a <= b
    ensures BytesOf(sizes, a) <= BytesOf(sizes, b) && |a| <= |b|
  {
    BytesSplit(sizes, a, b - a);
    assert a + (b - a) == b;
  }

  lemma {:induction false} SumAgrees(sizes: map<string, nat>, sizes': map<string, nat>, names: seq<string>)
    requires forall n :: n in names ==> SizeOf(sizes, n) == SizeOf(sizes', n)
    ensures SumBytes(sizes, names) == SumBytes(sizes', names)
  {
    if names != [] {
      SumAgrees(sizes, sizes', names[..|names| - 1]);
    }
  }

  lemma ListingOne(name: string)
    ensures Listing.Of({name}) == [name]
  {
    Listing.OfAscending({name});
    Listing.AscendingUnique(Listing.Of({name}), [name]);
  }

  lemma SumAgreesOn(sizes: map<string, nat>, sizes': map<string, nat>, s: set<string>)
    requires forall n :: n in s ==> SizeOf(sizes, n) == SizeOf(sizes', n)
    ensures BytesOf(sizes, s) == BytesOf(sizes', s)
  {
    SumAgrees(sizes, sizes', Listing.Of(s));
  }

  /** One more name. */
  lemma BytesWith(sizes: map<string, nat>, sizes': map<string, nat>, rest: set<string>, name: string)
    requires name !in rest && forall n :: n in rest ==> SizeOf(sizes, n) == SizeOf(sizes', n)
    ensures BytesOf(sizes', rest + {name}) == BytesOf(sizes, rest) + SizeOf(sizes', name)
  {
    hide SizeOf;
    BytesSplit(sizes', rest, {name});
    SumAgreesOn(sizes, sizes', rest);
    ListingOne(name);
    assert [name][..0] == [];
    assert SumBytes(sizes', []) == 0;
  }

  /** A name's size is replaced, or the name is new. */
  lemma BytesReplaced(sizes: map<string, nat>, sizes': map<string, nat>, keys: set<string>, name: string)
    requires forall n :: n in keys && n != name ==> SizeOf(sizes, n) == SizeOf(sizes', n)
    ensures BytesOf(sizes', keys + {name}) ==
      BytesOf(sizes, keys) - (if name in keys then SizeOf(sizes, name) else 0) + SizeOf(sizes', name)
    ensures BytesOf(sizes', keys - {name}) == BytesOf(sizes, keys) - (if name in keys then SizeOf(sizes, name) else 0)
  {
    hide SizeOf, SumBytes, BytesOf;
    var rest := keys - {name};
    BytesWith(sizes, sizes', rest, name);
    BytesWith(sizes, sizes, rest, name);
    assert rest + {name} == keys + {name};
    if name in keys { assert rest + {name} == keys; } else { assert rest == keys; }
    SumAgreesOn(sizes, sizes', rest);
  }
}
