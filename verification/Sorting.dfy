/** Go's sort.Slice and slices.Sort promise one thing: a permutation in which no element is smaller
    than one before it. Elements that tie may come out in any order, so results are stated for
    every such permutation. */
module Sorting {
  import opened Text

  /** The demand sort.Slice makes of its comparator. */
  ghost predicate StrictWeak<T(!new)>(less: (T, T) -> bool) {
    && (forall x, y :: !(less(x, y) && less(y, x)))
    && (forall x, y, z | !less(y, x) && !less(z, y) :: !less(z, x))
  }

  ghost predicate Ordered<T(!new)>(less: (T, T) -> bool, s: seq<T>) {
    forall i, j | 0 <= i < j < |s| :: !less(s[j], s[i])
  }

  ghost predicate IsSort<T(!new)>(less: (T, T) -> bool, s: seq<T>, r: seq<T>) {
    multiset(s) == multiset(r) && Ordered(less, r)
  }

  /** When ties are only between equal elements the sorted list is unique. */
  lemma {:induction false} SortIsUnique<T(!new)>(less: (T, T) -> bool, a: seq<T>, b: seq<T>)
    requires Ordered(less, a) && Ordered(less, b) && multiset(a) == multiset(b)
    requires forall x, y | x in a && y in a && !less(x, y) && !less(y, x) :: x == y
    ensures a == b
  {
    MultisetFacts(a, b);
    if a != [] {
      HeadsAgree(less, a, b);
      TailMultiset(a);
      TailMultiset(b);
      assert a == [a[0]] + a[1..] && b == [b[0]] + b[1..];
      assert Ordered(less, a[1..]) && Ordered(less, b[1..]);
      SortIsUnique(less, a[1..], b[1..]);
    }
  }

  lemma {:induction false} TailMultiset<T>(a: seq<T>)
    requires a != []
    ensures multiset(a[1..]) == multiset(a) - multiset{a[0]}
  {
    assert a == [a[0]] + a[1..];
  }

  lemma {:induction false} HeadsAgree<T(!new)>(less: (T, T) -> bool, a: seq<T>, b: seq<T>)
    requires a != [] && b != []
    requires Ordered(less, a) && Ordered(less, b) && multiset(a) == multiset(b)
    requires forall x, y | x in a && y in a && !less(x, y) && !less(y, x) :: x == y
    ensures a[0] == b[0]
  {
    MultisetFacts(a, b);
    assert a[0] in b && b[0] in a;
    var i :| 0 <= i < |a| && a[i] == b[0];
    var j :| 0 <= j < |b| && b[j] == a[0];
    assert i > 0 ==> !less(a[i], a[0]);
    assert j > 0 ==> !less(b[j], b[0]);
  }

  lemma {:induction false} MultisetFacts<T>(a: seq<T>, b: seq<T>)
    requires multiset(a) == multiset(b)
    ensures |a| == |b|
    ensures forall x :: x in a <==> x in b
  {
    assert |a| == |multiset(a)| && |b| == |multiset(b)|;
    forall x ensures x in a <==> x in b {
      assert x in a <==> x in multiset(a);
      assert x in b <==> x in multiset(b);
    }
  }

  lemma {:induction false} NotBelow<T(!new)>(less: (T, T) -> bool, s: seq<T>, k: nat, x: T)
    requires Ordered(less, s) && StrictWeak(less)
    requires 0 < k <= |s| && !less(x, s[k - 1])
    ensures forall j | 0 <= j < k :: !less(x, s[j])
  {
    forall j | 0 <= j < k ensures !less(x, s[j]) {
      if j < k - 1 {
        assert !less(s[k - 1], s[j]);
      }
    }
  }

  lemma {:induction false} NotAbove<T(!new)>(less: (T, T) -> bool, s: seq<T>, k: nat, x: T)
    requires StrictWeak(less) && k <= |s|
    requires forall j | k <= j < |s| :: less(x, s[j])
    ensures forall j | k <= j < |s| :: !less(s[j], x)
  {
  }

  lemma {:induction false} InsertKeepsOrder<T(!new)>(less: (T, T) -> bool, s: seq<T>, k: nat, x: T)
    requires Ordered(less, s) && k <= |s|
    requires forall j | 0 <= j < k :: !less(x, s[j])
    requires forall j | k <= j < |s| :: !less(s[j], x)
    ensures Ordered(less, s[..k] + [x] + s[k..])
    ensures multiset(s[..k] + [x] + s[k..]) == multiset(s) + multiset{x}
  {
    assert s == s[..k] + s[k..];
  }

  /** A sort that meets sort.Slice's promise; only the promise is visible to callers. */
  method SortSlice<T(!new)>(less: (T, T) -> bool, s: seq<T>) returns (r: seq<T>)
    requires StrictWeak(less)
    ensures IsSort(less, s, r)
  {
    r := [];
    for i := 0 to |s|
      invariant Ordered(less, r) && multiset(r) == multiset(s[..i])
    {
      var k := |r|;
      while k > 0 && less(s[i], r[k - 1])
        invariant 0 <= k <= |r|
        invariant forall j | k <= j < |r| :: less(s[i], r[j])
      {
        k := k - 1;
      }
      if k > 0 {
        NotBelow(less, r, k, s[i]);
      }
      NotAbove(less, r, k, s[i]);
      InsertKeepsOrder(less, r, k, s[i]);
      assert s[..i + 1] == s[..i] + [s[i]];
      r := r[..k] + [s[i]] + r[k..];
    }
    assert s[..|s|] == s;
  }

  // ---- strings ----

  lemma {:induction false} LessIsStrictWeak()
    ensures StrictWeak(Less)
  {
    forall x: string, y: string ensures !(Less(x, y) && Less(y, x)) {
      LessIsTotal(x, y);
    }
    forall x: string, y: string, z: string | !Less(y, x) && !Less(z, y) ensures !Less(z, x) {
      LessIsTransitive(x, y, z);
    }
  }

  /** The elements of a set of strings in increasing order. */
  ghost function SortedStrings(keys: set<string>): (r: seq<string>)
    ensures IsSort(Less, r, r) && multiset(r) == multiset(keys)
  {
    if keys == {} then []
    else
      var m := Least(keys);
      var rest := SortedStrings(keys - {m});
      LeastFirst(keys, m, rest);
      [m] + rest
  }

  ghost function Least(keys: set<string>): (m: string)
    requires keys != {}
    ensures m in keys && forall k | k in keys :: !Less(k, m)
  {
    var x :| x in keys;
    if keys == {x} then
      LessIsTotal(x, x);
      x
    else
      var m := Least(keys - {x});
      LeastOfTwo(keys, x, m);
      if Less(x, m) then x else m
  }

  lemma {:induction false} LeastOfTwo(keys: set<string>, x: string, m: string)
    requires x in keys && m in keys && forall k | k in keys - {x} :: !Less(k, m)
    ensures var least := if Less(x, m) then x else m; forall k | k in keys :: !Less(k, least)
  {
    forall k | k in keys ensures !Less(k, if Less(x, m) then x else m) {
      LessIsTotal(x, m);
      LessIsTotal(x, x);
      if Less(x, m) && k != x {
        LessIsTransitive(x, m, k);
      }
    }
  }

  lemma {:induction false} LeastFirst(keys: set<string>, m: string, rest: seq<string>)
    requires m in keys && (forall k | k in keys :: !Less(k, m))
    requires Ordered(Less, rest) && multiset(rest) == multiset(keys - {m})
    ensures Ordered(Less, [m] + rest) && multiset([m] + rest) == multiset(keys)
  {
    var all := [m] + rest;
    forall i | 0 <= i < |rest| ensures !Less(rest[i], m) {
      assert rest[i] in multiset(rest);
      assert rest[i] in keys;
    }
    forall i, j | 0 <= i < j < |all| ensures !Less(all[j], all[i]) {
      assert all[j] == rest[j - 1];
      assert i > 0 ==> all[i] == rest[i - 1];
    }
    assert multiset(all) == multiset{m} + multiset(rest);
    assert multiset(keys) == multiset(keys - {m}) + multiset{m};
  }

  lemma {:induction false} SortedStringsIsTheSort(keys: set<string>, r: seq<string>)
    requires multiset(r) == multiset(keys) && Ordered(Less, r)
    ensures r == SortedStrings(keys)
  {
    forall x, y | x in r && y in r && !Less(x, y) && !Less(y, x) ensures x == y {
      LessIsTotal(x, y);
    }
    SortIsUnique(Less, r, SortedStrings(keys));
  }
}
