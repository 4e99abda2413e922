/** Order-preserving selection and grouping of a list by a key. */
module Collect {

  /** The elements whose key is `k`, in their own order. */
  function Select<T, K(==)>(s: seq<T>, key: T -> K, k: K): seq<T> {
    if s == [] then []
    else Select(s[..|s| - 1], key, k) + (if key(s[|s| - 1]) == k then [s[|s| - 1]] else [])
  }

  /** The distinct keys of a list, in order of first occurrence. */
  function Firsts<T, K(==)>(s: seq<T>, key: T -> K): seq<K> {
    if s == [] then []
    else
      var ks := Firsts(s[..|s| - 1], key);
      if key(s[|s| - 1]) in ks then ks else ks + [key(s[|s| - 1])]
  }

  /** The groups of the given keys, one after the other. */
  function Gather<T, K(==)>(s: seq<T>, key: T -> K, ks: seq<K>): seq<T> {
    if ks == [] then [] else Gather(s, key, ks[..|ks| - 1]) + Select(s, key, ks[|ks| - 1])
  }

  ghost predicate Distinct<T(!new)>(s: seq<T>) {
    forall i, j | 0 <= i < j < |s| :: s[i] != s[j]
  }

  function Without<T>(s: seq<T>, i: nat): seq<T>
    requires i < |s|
  {
    var n := |s| - 1;
    if i == n then s[..n] else Without(s[..n], i) + [s[n]]
  }

  lemma {:induction false} WithoutOne<T>(s: seq<T>, i: nat)
    requires i < |s|
    ensures multiset(s) == multiset(Without(s, i)) + multiset{s[i]}
  {
    var n := |s| - 1;
    assert s == s[..n] + [s[n]];
    if i < n {
      WithoutOne(s[..n], i);
    }
  }

  /** Where the last element of a list sits in a permutation of it. */
  lemma {:induction false} MatchLast<T>(a: seq<T>, b: seq<T>) returns (i: nat)
    requires multiset(a) == multiset(b) && a != []
    ensures i < |b| && b[i] == a[|a| - 1]
    ensures multiset(a[..|a| - 1]) == multiset(Without(b, i))
  {
    var x := a[|a| - 1];
    assert a == a[..|a| - 1] + [x];
    assert x in multiset(b);
    i :| 0 <= i < |b| && b[i] == x;
    WithoutOne(b, i);
    assert multiset(a[..|a| - 1]) == multiset(a) - multiset{x};
  }

  lemma {:induction false} IsSnoc<T>(s: seq<T>, x: T, r: seq<T>)
    requires |r| == |s| + 1 && (forall i | 0 <= i < |s| :: r[i] == s[i]) && r[|s|] == x
    ensures r == s + [x]
  {
  }

  lemma {:induction false} WithoutAt<T>(s: seq<T>, i: nat)
    requires i < |s|
    ensures |Without(s, i)| == |s| - 1
    ensures forall k | 0 <= k < |s| - 1 :: Without(s, i)[k] == s[if k < i then k else k + 1]
  {
    if i < |s| - 1 {
      WithoutAt(s[..|s| - 1], i);
    }
  }

  lemma {:induction false} LastOfMultiset<T>(s: seq<T>)
    requires s != []
    ensures multiset(s) == multiset(s[..|s| - 1]) + multiset{s[|s| - 1]}
  {
    assert s == s[..|s| - 1] + [s[|s| - 1]];
  }

  lemma {:induction false} Twice<T>(s: seq<T>, i: nat, j: nat)
    requires i < j < |s| && s[i] == s[j]
    ensures multiset(s)[s[i]] >= 2
  {
    assert s == s[..i] + [s[i]] + s[i + 1..j] + [s[j]] + s[j + 1..];
  }

  /** Equal elements have equal images. */
  ghost predicate Functional<T(!new), U(!new)>(a: seq<T>, fa: seq<U>, b: seq<T>, fb: seq<U>) {
    && |fa| == |a| && |fb| == |b|
    && forall i, j | 0 <= i < |a| && 0 <= j < |b| && a[i] == b[j] :: fa[i] == fb[j]
  }

  /** The images of a permutation are a permutation of the images. */
  lemma {:induction false} ImagesPermute<T(!new), U(!new)>(a: seq<T>, fa: seq<U>, b: seq<T>, fb: seq<U>)
    requires multiset(a) == multiset(b) && Functional(a, fa, b, fb)
    ensures multiset(fa) == multiset(fb)
  {
    if a == [] {
      assert |multiset(b)| == 0;
    } else {
      var n := |a| - 1;
      var j := MatchLast(a, b);
      WithoutAt(b, j);
      WithoutAt(fb, j);
      ImagesPermute(a[..n], fa[..n], Without(b, j), Without(fb, j));
      LastOfMultiset(fa);
      WithoutOne(fb, j);
    }
  }

  lemma {:induction false} SwapSum<T>(a: multiset<T>, b: multiset<T>, c: multiset<T>)
    ensures a + b + c == a + c + b
  {
  }

  lemma {:induction false} ConcatSnoc<T>(a: seq<T>, b: seq<T>)
    requires b != []
    ensures a + b == (a + b[..|b| - 1]) + [b[|b| - 1]]
  {
  }

  lemma {:induction false} SelectSnoc<T, K>(s: seq<T>, x: T, key: T -> K, k: K)
    ensures Select(s + [x], key, k) == if key(x) == k then Select(s, key, k) + [x] else Select(s, key, k)
  {
    assert (s + [x])[..|s|] == s;
    assert Select(s, key, k) + [] == Select(s, key, k);
  }

  lemma {:induction false} SelectLast<T, K>(s: seq<T>, key: T -> K, k: K)
    requires s != []
    ensures var t, x := s[..|s| - 1], s[|s| - 1];
            Select(s, key, k) == if key(x) == k then Select(t, key, k) + [x] else Select(t, key, k)
  {
  }

  lemma {:induction false} FirstsSnoc<T, K>(s: seq<T>, x: T, key: T -> K)
    ensures Firsts(s + [x], key) == if key(x) in Firsts(s, key) then Firsts(s, key) else Firsts(s, key) + [key(x)]
  {
    assert (s + [x])[..|s|] == s;
  }

  lemma {:induction false} SelectConcat<T, K>(a: seq<T>, b: seq<T>, key: T -> K, k: K)
    ensures Select(a + b, key, k) == Select(a, key, k) + Select(b, key, k)
  {
    if b == [] {
      assert a + b == a;
    } else {
      var b' := b[..|b| - 1];
      SelectConcat(a, b', key, k);
      assert a + b == (a + b') + [b[|b| - 1]];
      SelectSnoc(a + b', b[|b| - 1], key, k);
    }
  }

  /** The parts one after the other. */
  function Concatenated<T>(parts: seq<seq<T>>): seq<T> {
    if parts == [] then [] else parts[0] + Concatenated(parts[1..])
  }

  lemma {:induction false} ConcatenatedLast<T>(parts: seq<seq<T>>, last: seq<T>)
    ensures Concatenated(parts + [last]) == Concatenated(parts) + last
  {
    if parts == [] {
      assert [last][1..] == [] && parts + [last] == [last];
    } else {
      ConcatenatedLast(parts[1..], last);
      assert (parts + [last])[1..] == parts[1..] + [last];
      assert parts[0] + (Concatenated(parts[1..]) + last) == parts[0] + Concatenated(parts[1..]) + last;
    }
  }

  lemma {:induction false} SelectMembers<T, K>(s: seq<T>, key: T -> K, k: K)
    ensures forall x :: x in Select(s, key, k) <==> x in s && key(x) == k
  {
    if s != [] {
      SelectMembers(s[..|s| - 1], key, k);
      assert s == s[..|s| - 1] + [s[|s| - 1]];
    }
  }

  /** Selecting by a coarser key first changes nothing, if key `k` only occurs under coarse key `c`. */
  lemma {:induction false} SelectWithin<T, C, K>(s: seq<T>, coarse: T -> C, c: C, key: T -> K, k: K)
    requires forall i | 0 <= i < |s| && key(s[i]) == k :: coarse(s[i]) == c
    ensures Select(Select(s, coarse, c), key, k) == Select(s, key, k)
  {
    if s != [] {
      var t, x := s[..|s| - 1], s[|s| - 1];
      SelectWithin(t, coarse, c, key, k);
      SelectConcat(Select(t, coarse, c), if coarse(x) == c then [x] else [], key, k);
      assert Select([x], key, k) == if key(x) == k then [x] else [] by {
        SelectSnoc([], x, key, k);
        assert [] + [x] == [x];
      }
    }
  }

  /** Selection keeps multiplicities. */
  lemma {:induction false} SelectMultiset<T(!new), K>(a: seq<T>, b: seq<T>, key: T -> K, k: K)
    requires multiset(a) == multiset(b)
    ensures multiset(Select(a, key, k)) == multiset(Select(b, key, k))
  {
    forall x ensures multiset(Select(a, key, k))[x] == multiset(Select(b, key, k))[x] {
      SelectCount(a, key, k, x);
      SelectCount(b, key, k, x);
    }
  }

  lemma {:induction false} SelectCount<T, K>(s: seq<T>, key: T -> K, k: K, x: T)
    ensures multiset(Select(s, key, k))[x] == if key(x) == k then multiset(s)[x] else 0
  {
    if s != [] {
      SelectCount(s[..|s| - 1], key, k, x);
      assert s == s[..|s| - 1] + [s[|s| - 1]];
    }
  }

  /** All pairs of a list, earlier element first, are related. */
  ghost predicate Pairwise<T(!new)>(s: seq<T>, rel: (T, T) -> bool) {
    forall i, j | 0 <= i < j < |s| :: rel(s[i], s[j])
  }

  lemma {:induction false} SelectKeepsOrder<T(!new), K>(s: seq<T>, key: T -> K, k: K, rel: (T, T) -> bool)
    requires Pairwise(s, rel)
    ensures Pairwise(Select(s, key, k), rel)
  {
    if s != [] {
      var t, x := s[..|s| - 1], s[|s| - 1];
      SelectKeepsOrder(t, key, k, rel);
      SelectMembers(t, key, k);
      var r := Select(t, key, k);
      forall i | 0 <= i < |r| ensures rel(r[i], x) {
        assert r[i] in r && r[i] in t;
      }
      assert Pairwise(r + [x], rel);
    }
  }

  lemma {:induction false} FirstsFacts<T, K(!new)>(s: seq<T>, key: T -> K)
    ensures Distinct(Firsts(s, key))
    ensures forall k :: k in Firsts(s, key) <==> exists i | 0 <= i < |s| :: key(s[i]) == k
  {
    if s != [] {
      var t := s[..|s| - 1];
      FirstsFacts(t, key);
      forall k ensures k in Firsts(s, key) <==> exists i | 0 <= i < |s| :: key(s[i]) == k {
        if k in Firsts(t, key) {
          var i :| 0 <= i < |t| && key(t[i]) == k;
          assert key(s[i]) == k;
        }
      }
    }
  }

  /** Keys come in the order of their first elements: before the first element of a later key there is one of an earlier
      key. */
  lemma {:induction false} FirstsOrder<T, K(!new)>(s: seq<T>, key: T -> K, i: nat, j: nat)
    requires i < j < |Firsts(s, key)|
    ensures exists p | 0 <= p < |s| ::
              key(s[p]) == Firsts(s, key)[i] && forall q | 0 <= q <= p :: key(s[q]) != Firsts(s, key)[j]
  {
    FirstsFacts(s, key);
    var t := s[..|s| - 1];
    var ks := Firsts(t, key);
    FirstsFacts(t, key);
    if j < |ks| {
      FirstsOrder(t, key, i, j);
      var p :| 0 <= p < |t| && key(t[p]) == ks[i] && forall q | 0 <= q <= p :: key(t[q]) != ks[j];
      assert key(s[p]) == Firsts(s, key)[i];
      assert forall q | 0 <= q <= p :: s[q] == t[q];
    } else {
      assert ks[i] in ks;
      var p :| 0 <= p < |t| && key(t[p]) == ks[i];
      assert key(s[p]) == Firsts(s, key)[i];
      forall q | 0 <= q <= p ensures key(s[q]) != Firsts(s, key)[j] {
        assert s[q] == t[q];
      }
    }
  }

  lemma {:induction false} SelectAbsent<T, K>(s: seq<T>, key: T -> K, k: K)
    requires k !in Firsts(s, key)
    ensures Select(s, key, k) == []
  {
    if s != [] {
      SelectAbsent(s[..|s| - 1], key, k);
    }
  }

  lemma {:induction false} GatherCount<T, K(!new)>(s: seq<T>, key: T -> K, ks: seq<K>, x: T)
    requires Distinct(ks)
    ensures multiset(Gather(s, key, ks))[x] == if key(x) in ks then multiset(s)[x] else 0
  {
    if ks != [] {
      var t, k := ks[..|ks| - 1], ks[|ks| - 1];
      GatherCount(s, key, t, x);
      SelectCount(s, key, k, x);
    }
  }

  /** The groups of any list of distinct keys that covers all of them are together a permutation of the list. */
  lemma {:induction false} GroupsPartition<T(!new), K(!new)>(s: seq<T>, key: T -> K, ks: seq<K>)
    requires Distinct(ks) && forall i | 0 <= i < |s| :: key(s[i]) in ks
    ensures multiset(Gather(s, key, ks)) == multiset(s)
  {
    forall x ensures multiset(Gather(s, key, ks))[x] == multiset(s)[x] {
      GatherCount(s, key, ks, x);
      if x in s {
        var i :| 0 <= i < |s| && s[i] == x;
        assert key(s[i]) in ks;
      } else {
        assert x !in multiset(s);
      }
    }
  }
}
