/** How stable the sorted output is: which of the orders that Go maps and sort.Slice allow can be seen in it. */
module Stability {
  import opened Text
  import opened Kube
  import opened Collect
  import opened Sorting
  import opened Dedup
  import opened Canary
  import opened Emission

  // ---- how stable the sorted refs are ----

  /** The de-duplicated refs, in a sorted order: what a rule can be emitted with. */
  ghost predicate EmittedRefs(refs: seq<BackendRef>, out: seq<BackendRef>) {
    IsDedup(refs, out) && Ordered(RefBefore, out)
  }

  predicate SameSortKey(a: BackendRef, b: BackendRef) { NamespaceOf(a) == NamespaceOf(b) && a.name == b.name }

  lemma {:induction false} TieMeansSameSortKey(a: BackendRef, b: BackendRef)
    ensures !RefBefore(a, b) && !RefBefore(b, a) <==> SameSortKey(a, b)
  {
    LessIsTotal(NamespaceOf(a), NamespaceOf(b));
    LessIsTotal(a.name, b.name);
  }

  lemma {:induction false} DedupsArePermutations(refs: seq<BackendRef>, a: seq<BackendRef>, b: seq<BackendRef>)
    requires IsDedup(refs, a) && IsDedup(refs, b)
    ensures multiset(a) == multiset(b)
  {
    forall x ensures multiset(a)[x] == multiset(b)[x] {
      OnceEach(a, x);
      OnceEach(b, x);
      DedupSameMembers(refs, a, b, x);
      DedupSameMembers(refs, b, a, x);
      assert x in a <==> x in multiset(a);
      assert x in b <==> x in multiset(b);
    }
  }

  lemma {:induction false} DedupSameMembers(refs: seq<BackendRef>, a: seq<BackendRef>, b: seq<BackendRef>,
          x: BackendRef)
    requires IsDedup(refs, a) && IsDedup(refs, b)
    ensures x in a ==> x in b
  {
    if x in a {
      var i :| 0 <= i < |a| && a[i] == x;
      var r := KeyPresent(refs, KeyOf(x));
      var j :| 0 <= j < |b| && KeyOf(b[j]) == KeyOf(refs[r]);
      SameMerged(refs, a, b, i, j);
    }
  }

  lemma {:induction false} KeyPresent(refs: seq<BackendRef>, k: RefKey) returns (r: nat)
    requires Select(refs, KeyOf, k) != []
    ensures r < |refs| && KeyOf(refs[r]) == k
  {
    SelectMembers(refs, KeyOf, k);
    var first := Select(refs, KeyOf, k)[0];
    assert first in Select(refs, KeyOf, k);
    r :| 0 <= r < |refs| && refs[r] == first;
  }

  lemma {:induction false} SameMerged(refs: seq<BackendRef>, a: seq<BackendRef>, b: seq<BackendRef>, i: nat, j: nat)
    requires IsDedup(refs, a) && IsDedup(refs, b)
    requires i < |a| && j < |b| && KeyOf(a[i]) == KeyOf(b[j])
    ensures a[i] == b[j]
  {
  }

  /** Swapping two tied neighbours-in-order keeps a list sorted. */
  lemma {:induction false} SwapTied(out: seq<BackendRef>, i: nat, j: nat)
    requires i < j < |out| && Ordered(RefBefore, out) && SameSortKey(out[i], out[j])
    ensures Ordered(RefBefore, out[i := out[j]][j := out[i]])
    ensures multiset(out[i := out[j]][j := out[i]]) == multiset(out)
  {
    var r := out[i := out[j]][j := out[i]];
    forall a, b | 0 <= a < b < |r| ensures !RefBefore(r[b], r[a]) {
      var a', b' := if a == j then i else a, if b == i then j else b;
      TieMeansSameSortKey(out[i], out[j]);
      if a == i && b == j {
      } else if a == j {
        assert SameSortKey(r[a], out[j]) && !RefBefore(out[b], out[j]);
      } else if b == i {
        assert SameSortKey(r[b], out[i]) && !RefBefore(out[i], out[a]);
      } else if a == i {
        assert SameSortKey(r[a], out[i]) && !RefBefore(out[b], out[i]);
      } else if b == j {
        assert SameSortKey(r[b], out[j]) && !RefBefore(out[j], out[a]);
      } else {
        assert r[a] == out[a] && r[b] == out[b];
      }
    }
  }

  // ---- the refs of one rule ----

  /** No earlier ref has the key of ref `i`: it is the one that stays. */
  predicate IsFirst(refs: seq<BackendRef>, i: nat)
    requires i < |refs|
  {
    forall h | 0 <= h < i :: KeyOf(refs[h]) != KeyOf(refs[i])
  }

  /** Any two refs that stay differ in namespace or name. */
  predicate NamesTellApart(refs: seq<BackendRef>) {
    forall i, j | 0 <= i < j < |refs| && IsFirst(refs, i) && IsFirst(refs, j) :: !SameSortKey(refs[i], refs[j])
  }

  lemma {:induction false} SelectHead(refs: seq<BackendRef>, k: RefKey)
    requires refs != []
    ensures var t, r := refs[..|refs| - 1], refs[|refs| - 1];
            && (Select(t, KeyOf, k) != [] ==> Select(refs, KeyOf, k) != []
                                              && Select(refs, KeyOf, k)[0] == Select(t, KeyOf, k)[0])
            && (Select(t, KeyOf, k) == [] && KeyOf(r) == k ==> Select(refs, KeyOf, k) == [r])
  {
    var t, r := refs[..|refs| - 1], refs[|refs| - 1];
    SelectSnoc(t, r, KeyOf, k);
    assert refs == t + [r];
  }

  lemma {:induction false} LastIsSelected(refs: seq<BackendRef>)
    requires refs != [] && IsFirst(refs, |refs| - 1)
    ensures Select(refs, KeyOf, KeyOf(refs[|refs| - 1])) == [refs[|refs| - 1]]
  {
    var t, k := refs[..|refs| - 1], KeyOf(refs[|refs| - 1]);
    SelectHead(refs, k);
    if Select(t, KeyOf, k) != [] {
      var h := KeyPresent(t, k);
      assert false;
    }
  }

  lemma {:induction false} FirstIsSelected(refs: seq<BackendRef>, i: nat)
    requires i < |refs| && IsFirst(refs, i)
    ensures Select(refs, KeyOf, KeyOf(refs[i])) != [] && Select(refs, KeyOf, KeyOf(refs[i]))[0] == refs[i]
  {
    var t := refs[..|refs| - 1];
    if i < |t| {
      SelectHead(refs, KeyOf(refs[i]));
      FirstStays(refs, i);
      FirstIsSelected(t, i);
    } else {
      LastIsSelected(refs);
    }
  }

  lemma {:induction false} FirstStays(refs: seq<BackendRef>, i: nat)
    requires i < |refs| - 1 && IsFirst(refs, i)
    ensures var t := refs[..|refs| - 1]; t[i] == refs[i] && IsFirst(t, i)
  {
  }

  lemma {:induction false} FirstExists(refs: seq<BackendRef>, r: nat) returns (i: nat)
    requires r < |refs|
    ensures i <= r && IsFirst(refs, i) && KeyOf(refs[i]) == KeyOf(refs[r])
  {
    i := r;
    while !IsFirst(refs, i)
      invariant i <= r && KeyOf(refs[i]) == KeyOf(refs[r])
      decreases i
    {
      var h :| 0 <= h < i && KeyOf(refs[h]) == KeyOf(refs[i]);
      i := h;
    }
  }

  /** The ref a de-duplicated ref was made from: they sort alike. */
  lemma {:induction false} Origin(refs: seq<BackendRef>, out: seq<BackendRef>, a: nat) returns (i: nat)
    requires IsDedup(refs, out) && a < |out|
    ensures i < |refs| && IsFirst(refs, i) && KeyOf(refs[i]) == KeyOf(out[a]) && SameSortKey(refs[i], out[a])
  {
    var r := KeyPresent(refs, KeyOf(out[a]));
    i := FirstExists(refs, r);
    FirstIsSelected(refs, i);
  }

  lemma {:induction false} Kept(refs: seq<BackendRef>, out: seq<BackendRef>, i: nat) returns (a: nat)
    requires IsDedup(refs, out) && i < |refs| && IsFirst(refs, i)
    ensures a < |out| && KeyOf(out[a]) == KeyOf(refs[i]) && SameSortKey(refs[i], out[a])
  {
    assert HasRef(out, KeyOf(refs[i]));
    a :| 0 <= a < |out| && KeyOf(out[a]) == KeyOf(refs[i]);
    FirstIsSelected(refs, i);
  }

  /** No two of the de-duplicated refs tie. */
  ghost predicate NoRefTies(out: seq<BackendRef>) {
    forall a, b | 0 <= a < b < |out| :: !SameSortKey(out[a], out[b])
  }

  lemma {:induction false} TiesIff(refs: seq<BackendRef>, out: seq<BackendRef>)
    requires IsDedup(refs, out)
    ensures NoRefTies(out) <==> NamesTellApart(refs)
  {
    if NamesTellApart(refs) {
      forall a, b | 0 <= a < b < |out| ensures !SameSortKey(out[a], out[b]) {
        var i := Origin(refs, out, a);
        var j := Origin(refs, out, b);
        assert i != j;
      }
    }
    if NoRefTies(out) {
      forall i, j | 0 <= i < j < |refs| && IsFirst(refs, i) && IsFirst(refs, j) ensures !SameSortKey(refs[i], refs[j]) {
        var a := Kept(refs, out, i);
        var b := Kept(refs, out, j);
        assert a != b;
      }
    }
  }

  /** The comment promises "stable output". The emitted refs of a rule are the same for every map iteration and sort
      exactly when any two of its backends, as the keys tell them apart, differ in namespace or name; two ports of one
      service break it. */
  lemma {:induction false} RefOrderStableIff(refs: seq<BackendRef>, out: seq<BackendRef>)
    requires EmittedRefs(refs, out)
    ensures (forall other :: EmittedRefs(refs, other) ==> other == out) <==> NamesTellApart(refs)
  {
    TiesIff(refs, out);
    if NamesTellApart(refs) {
      forall other | EmittedRefs(refs, other) ensures other == out {
        OneOrder(refs, out, other);
      }
    } else {
      var other := OtherOrder(refs, out);
    }
  }

  lemma {:induction false} OneOrder(refs: seq<BackendRef>, out: seq<BackendRef>, other: seq<BackendRef>)
    requires EmittedRefs(refs, out) && EmittedRefs(refs, other) && NoRefTies(out)
    ensures other == out
  {
    DedupsArePermutations(refs, out, other);
    forall x, y | x in out && y in out && !RefBefore(x, y) && !RefBefore(y, x) ensures x == y {
      TieMeansSameSortKey(x, y);
    }
    SortIsUnique(RefBefore, out, other);
  }

  lemma {:induction false} OtherOrder(refs: seq<BackendRef>, out: seq<BackendRef>) returns (other: seq<BackendRef>)
    requires EmittedRefs(refs, out) && !NoRefTies(out)
    ensures EmittedRefs(refs, other) && multiset(other) == multiset(out) && other != out
  {
    var i, j :| 0 <= i < j < |out| && SameSortKey(out[i], out[j]);
    other := out[i := out[j]][j := out[i]];
    SwapTied(out, i, j);
    DedupAnyOrder(refs, out, other);
    assert KeyOf(out[i]) != KeyOf(out[j]) && other[i] == out[j];
  }

  // ---- a whole route ----

  /** `out` can be emitted for a route with these rules. */
  ghost predicate EmittedAs(rules: seq<RouteRule>, out: seq<RouteRule>) {
    exists mid, order :: Deduped(rules, mid) && SortedRoute(mid, order, out)
  }

  ghost predicate AllTellApart(rules: seq<RouteRule>) {
    forall q | 0 <= q < |rules| :: NamesTellApart(rules[q].backendRefs)
  }

  /** A rule without its refs: all that the order of rules depends on. */
  function Bare(rule: RouteRule): RouteRule { rule.(backendRefs := []) }

  function Bares(rules: seq<RouteRule>): seq<RouteRule> {
    seq(|rules|, i requires 0 <= i < |rules| => Bare(rules[i]))
  }

  lemma {:induction false} BaresPermute(a: seq<RouteRule>, b: seq<RouteRule>)
    requires multiset(a) == multiset(b)
    ensures multiset(Bares(a)) == multiset(Bares(b))
  {
    MultisetFacts(a, b);
    ImagesPermute(a, Bares(a), b, Bares(b));
  }

  lemma {:induction false} BaresSorted(rules: seq<RouteRule>, mid: seq<RouteRule>, order: seq<RouteRule>,
          out: seq<RouteRule>)
    requires Deduped(rules, mid) && SortedRoute(mid, order, out)
    ensures IsSort(RuleBefore, Bares(rules), Bares(out))
  {
    BaresPermute(mid, order);
    assert Bares(rules) == Bares(mid) by {
      forall i | 0 <= i < |rules| ensures Bare(rules[i]) == Bare(mid[i]) {
        assert DedupedRule(rules[i], mid[i]);
      }
    }
    assert Bares(out) == Bares(order);
    forall i, j | 0 <= i < j < |order| ensures !RuleBefore(Bares(order)[j], Bares(order)[i]) {
      assert !RuleBefore(order[j], order[i]);
    }
  }

  /** An emitted rule, its origin, and its refs. */
  lemma {:induction false} EmittedRule(rules: seq<RouteRule>, mid: seq<RouteRule>, order: seq<RouteRule>,
          out: seq<RouteRule>, w: nat)
    returns (q: nat)
    requires Deduped(rules, mid) && SortedRoute(mid, order, out) && w < |out|
    ensures q < |rules| && rules[q].name == out[w].name && EmittedRefs(rules[q].backendRefs, out[w].backendRefs)
  {
    EmittedFrom(rules, mid, order, out);
    assert FromSome(rules, out[w]);
    q :| 0 <= q < |rules| && DedupedRule(rules[q], out[w]);
  }

  lemma {:induction false} SameRules(rules: seq<RouteRule>, mid: seq<RouteRule>, order: seq<RouteRule>,
          out: seq<RouteRule>, mid': seq<RouteRule>, order': seq<RouteRule>, out': seq<RouteRule>)
    requires DistinctNames(rules) && AllTellApart(rules)
    requires Deduped(rules, mid) && SortedRoute(mid, order, out)
    requires Deduped(rules, mid') && SortedRoute(mid', order', out')
    ensures out' == out
  {
    BaresSorted(rules, mid, order, out);
    BaresSorted(rules, mid', order', out');
    RuleOrderUnique(Bares(rules), Bares(rules), Bares(out), Bares(out'));
    assert |Bares(out)| == |out| && |Bares(out')| == |out'|;
    forall w | 0 <= w < |out| ensures out'[w] == out[w] {
      assert Bares(out)[w] == Bares(out')[w];
      var q := EmittedRule(rules, mid, order, out, w);
      var q' := EmittedRule(rules, mid', order', out', w);
      assert q == q';
      TiesIff(rules[q].backendRefs, out[w].backendRefs);
      OneOrder(rules[q].backendRefs, out[w].backendRefs, out'[w].backendRefs);
    }
  }

  lemma {:induction false} OtherRefs(mid: seq<RouteRule>, order: seq<RouteRule>, out: seq<RouteRule>, w: nat,
          refs: seq<BackendRef>)
    requires SortedRoute(mid, order, out) && w < |out|
    requires multiset(refs) == multiset(out[w].backendRefs) && Ordered(RefBefore, refs)
    ensures SortedRoute(mid, order, out[w := out[w].(backendRefs := refs)])
  {
  }

  lemma {:induction false} TwoOutputs(rules: seq<RouteRule>, mid: seq<RouteRule>, order: seq<RouteRule>,
          out: seq<RouteRule>, q: nat)
    returns (other: seq<RouteRule>)
    requires Deduped(rules, mid) && SortedRoute(mid, order, out)
    requires q < |rules| && !NamesTellApart(rules[q].backendRefs)
    ensures SortedRoute(mid, order, other) && other != out
  {
    EmittedFrom(rules, mid, order, out);
    assert KeptBySome(rules[q], out);
    var w :| 0 <= w < |out| && DedupedRule(rules[q], out[w]);
    other := OtherRefsOf(rules[q], mid, order, out, w);
  }

  lemma {:induction false} OtherRefsOf(rule: RouteRule, mid: seq<RouteRule>, order: seq<RouteRule>, out: seq<RouteRule>,
          w: nat)
    returns (other: seq<RouteRule>)
    requires SortedRoute(mid, order, out) && w < |out| && DedupedRule(rule, out[w]) && !NamesTellApart(rule.backendRefs)
    ensures SortedRoute(mid, order, other) && other != out
  {
    TiesIff(rule.backendRefs, out[w].backendRefs);
    var refs := OtherOrder(rule.backendRefs, out[w].backendRefs);
    OtherRefs(mid, order, out, w, refs);
    other := out[w := out[w].(backendRefs := refs)];
    assert other[w].backendRefs != out[w].backendRefs;
  }

  /** The whole of sortGatewayResources' promise for a route: with distinct rule names, one list of rules comes out, for
      every map iteration and every sort, iff the refs of each rule can be told apart by namespace and name. */
  lemma {:induction false} RouteOutputStableIff(rules: seq<RouteRule>, out: seq<RouteRule>)
    requires DistinctNames(rules) && EmittedAs(rules, out)
    ensures (forall other :: EmittedAs(rules, other) ==> other == out) <==> AllTellApart(rules)
  {
    var mid, order :| Deduped(rules, mid) && SortedRoute(mid, order, out);
    if AllTellApart(rules) {
      forall other | EmittedAs(rules, other) ensures other == out {
        var mid', order' :| Deduped(rules, mid') && SortedRoute(mid', order', other);
        SameRules(rules, mid, order, out, mid', order', other);
      }
    } else {
      var q :| 0 <= q < |rules| && !NamesTellApart(rules[q].backendRefs);
      var other := TwoOutputs(rules, mid, order, out, q);
      assert EmittedAs(rules, other);
    }
  }

  /** So for a converted route after its canary expansion. */
  lemma {:induction false} ExpandedOutputStableIff(rules: seq<RouteRule>, sources: seq<seq<BackendSource>>,
          out: seq<RouteRule>)
    requires Indexable(rules, sources) && NumberedRules(rules) && EmittedAs(Final(rules, sources), out)
    ensures (forall other :: EmittedAs(Final(rules, sources), other) ==> other == out) <==>
            AllTellApart(Final(rules, sources))
  {
    ExpandedNamesDistinct(rules, sources);
    RouteOutputStableIff(Final(rules, sources), out);
  }

  /** A canary and an ordinary Ingress send one path to two ports of one service: no error, and two possible outputs. */
  lemma {:induction false} TwoPortsUnstable(rule: RouteRule, canary: BackendSource, stable: BackendSource)
    requires rule.name.Some? && |rule.backendRefs| == 2
    requires canary.ingress.Some? && canary.ingress.value.annotations == map[CanaryKey := "true"]
    requires stable.ingress.Some? && stable.ingress.value.annotations == map[]
    requires rule.backendRefs[0].port == Some(80) && rule.backendRefs[1] == rule.backendRefs[0].(port := Some(8080))
    ensures Indexable([rule], [[canary, stable]]) && Expand([rule], [[canary, stable]], 1).errors == []
    ensures Final([rule], [[canary, stable]]) == [rule] && !NamesTellApart(rule.backendRefs)
  {
    var list := [canary, stable];
    ScanPair(0, canary, stable);
    ExpandStep([rule], [list], 1);
    assert IsFirst(rule.backendRefs, 0) && IsFirst(rule.backendRefs, 1);
  }
}
