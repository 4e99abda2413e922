/** Extension features: their Equals, and the merge of per-rule features into one route-level feature. */
module Features {
  import opened Text
  import opened Sorting

  datatype TimeUnit = Second | Minute

  datatype Feature =
    | Cors(allowOrigins: seq<string>, allowMethods: seq<string>, allowHeaders: seq<string>, exposeHeaders: seq<string>,
           maxAge: Option<string>, allowCredentials: Option<bool>)
    | IpRange(allowList: seq<string>, denyList: seq<string>)
    | Retry(triggers: seq<string>, count: Option<int>)
    | RateLimit(limit: nat, unit: TimeUnit)
    | Timeout(duration: Option<string>)
    | BackendTLS(certificate: string, sni: string, insecureSkipVerify: Option<bool>)

  /** A feature with the metadata that Equals ignores. */
  datatype FeatureIR = FeatureIR(feature: Feature, parsed: bool, source: string)

  // ---- Equals ----

  function InsertSorted(x: string, s: seq<string>): seq<string> {
    if s == [] || !Less(s[0], x) then [x] + s else [s[0]] + InsertSorted(x, s[1..])
  }

  /** slices.Sort on a clone. */
  function Sorted(s: seq<string>): seq<string> {
    if s == [] then [] else InsertSorted(s[0], Sorted(s[1..]))
  }

  lemma {:induction false} InsertSortedFacts(x: string, s: seq<string>)
    requires Ordered(Less, s)
    ensures multiset(InsertSorted(x, s)) == multiset(s) + multiset{x}
    ensures Ordered(Less, InsertSorted(x, s))
  {
    if s != [] && Less(s[0], x) {
      InsertSortedFacts(x, s[1..]);
      InsertedAfter(x, s, InsertSorted(x, s[1..]));
    } else if s != [] {
      InsertedFirst(x, s);
    }
  }

  lemma {:induction false} InsertedFirst(x: string, s: seq<string>)
    requires Ordered(Less, s) && s != [] && !Less(s[0], x)
    ensures Ordered(Less, [x] + s)
  {
    forall i | 0 <= i < |s| ensures !Less(s[i], x) {
      if i > 0 {
        assert !Less(s[i], s[0]);
        LessIsTransitive(x, s[0], s[i]);
      }
    }
  }

  lemma {:induction false} InsertedAfter(x: string, s: seq<string>, t: seq<string>)
    requires Ordered(Less, s) && s != [] && Less(s[0], x)
    requires multiset(t) == multiset(s[1..]) + multiset{x} && Ordered(Less, t)
    ensures multiset([s[0]] + t) == multiset(s) + multiset{x} && Ordered(Less, [s[0]] + t)
  {
    assert s == [s[0]] + s[1..];
    LessIsTotal(s[0], x);
    forall i | 0 <= i < |t| ensures !Less(t[i], s[0]) {
      assert t[i] in multiset(t);
      assert t[i] == x || t[i] in s[1..];
    }
  }

  lemma {:induction false} SortedFacts(s: seq<string>)
    ensures multiset(Sorted(s)) == multiset(s) && Ordered(Less, Sorted(s))
  {
    if s != [] {
      SortedFacts(s[1..]);
      InsertSortedFacts(s[0], Sorted(s[1..]));
      assert s == [s[0]] + s[1..];
    }
  }

  /** Comparing sorted clones is comparing as multisets. */
  lemma {:induction false} SortedCompare(a: seq<string>, b: seq<string>)
    ensures Sorted(a) == Sorted(b) <==> multiset(a) == multiset(b)
  {
    SortedFacts(a);
    SortedFacts(b);
    if multiset(a) == multiset(b) {
      forall x, y | x in Sorted(a) && y in Sorted(a) && !Less(x, y) && !Less(y, x) ensures x == y {
        LessIsTotal(x, y);
      }
      SortIsUnique(Less, Sorted(a), Sorted(b));
    }
  }

  /** equalStringSlicesIgnoreOrder */
  function EqualIgnoreOrder(a: seq<string>, b: seq<string>): bool {
    if |a| != |b| then false else Sorted(a) == Sorted(b)
  }

  function SameOption<T(==)>(a: Option<T>, b: Option<T>): bool {
    if a.None? != b.None? then false else a.None? || a.value == b.value
  }

  /** The Equals methods: a failed type assertion is false. */
  function Equals(a: Feature, b: Feature): bool {
    match a
    case Cors(_, _, _, _, _, _) =>
      b.Cors?
      && EqualIgnoreOrder(a.allowOrigins, b.allowOrigins) && EqualIgnoreOrder(a.allowMethods, b.allowMethods)
      && EqualIgnoreOrder(a.allowHeaders, b.allowHeaders) && EqualIgnoreOrder(a.exposeHeaders, b.exposeHeaders)
      && SameOption(a.maxAge, b.maxAge) && SameOption(a.allowCredentials, b.allowCredentials)
    case IpRange(_, _) =>
      b.IpRange? && Sorted(a.allowList) == Sorted(b.allowList) && Sorted(a.denyList) == Sorted(b.denyList)
    case Retry(_, _) =>
      b.Retry? && SameOption(a.count, b.count) && Sorted(a.triggers) == Sorted(b.triggers)
    case RateLimit(_, _) => b.RateLimit? && a.limit == b.limit && a.unit == b.unit
    case Timeout(_) => b.Timeout? && SameOption(a.duration, b.duration)
    case BackendTLS(_, _, _) =>
      b.BackendTLS? && a.sni == b.sni && SameOption(a.insecureSkipVerify, b.insecureSkipVerify)
      && a.certificate == b.certificate
  }

  /** What a feature says: its lists as multisets, its scalars as they are. */
  datatype Content = Content(kind: nat, lists: seq<multiset<string>>, texts: seq<Option<string>>, number: Option<int>,
                             flag: Option<bool>)

  function ContentOf(f: Feature): Content {
    match f
    case Cors(o, m, h, e, age, creds) =>
      Content(0, [multiset(o), multiset(m), multiset(h), multiset(e)], [age], None, creds)
    case IpRange(a, d) => Content(1, [multiset(a), multiset(d)], [], None, None)
    case Retry(t, c) => Content(2, [multiset(t)], [], c, None)
    case RateLimit(l, u) => Content(3, [], [], Some(l), Some(u.Second?))
    case Timeout(d) => Content(4, [], [d], None, None)
    case BackendTLS(c, s, i) => Content(5, [], [Some(c), Some(s)], None, i)
  }

  lemma {:induction false} EqualIgnoreOrderMeaning(a: seq<string>, b: seq<string>)
    ensures EqualIgnoreOrder(a, b) <==> multiset(a) == multiset(b)
  {
    SortedCompare(a, b);
    assert |multiset(a)| == |a| && |multiset(b)| == |b|;
  }

  /** Two features are Equals exactly when they say the same; so Equals is an equivalence relation. */
  lemma {:induction false} EqualsMeaning(a: Feature, b: Feature)
    ensures Equals(a, b) <==> ContentOf(a) == ContentOf(b)
  {
    match a {
      case Cors(_, _, _, _, _, _) =>
        if b.Cors? {
          EqualIgnoreOrderMeaning(a.allowOrigins, b.allowOrigins);
          EqualIgnoreOrderMeaning(a.allowMethods, b.allowMethods);
          EqualIgnoreOrderMeaning(a.allowHeaders, b.allowHeaders);
          EqualIgnoreOrderMeaning(a.exposeHeaders, b.exposeHeaders);
          assert ContentOf(a) == ContentOf(b) ==>
            ContentOf(a).lists[0] == ContentOf(b).lists[0] && ContentOf(a).lists[1] == ContentOf(b).lists[1]
            && ContentOf(a).lists[2] == ContentOf(b).lists[2] && ContentOf(a).lists[3] == ContentOf(b).lists[3]
            && ContentOf(a).texts[0] == ContentOf(b).texts[0];
        }
      case IpRange(_, _) =>
        if b.IpRange? {
          SortedCompare(a.allowList, b.allowList);
          SortedCompare(a.denyList, b.denyList);
          assert ContentOf(a) == ContentOf(b) ==>
            ContentOf(a).lists[0] == ContentOf(b).lists[0] && ContentOf(a).lists[1] == ContentOf(b).lists[1];
        }
      case Retry(_, _) =>
        if b.Retry? {
          SortedCompare(a.triggers, b.triggers);
          assert ContentOf(a) == ContentOf(b) ==> ContentOf(a).lists[0] == ContentOf(b).lists[0];
        }
      case RateLimit(_, _) =>
      case Timeout(_) =>
        assert b.Timeout? && ContentOf(a) == ContentOf(b) ==> ContentOf(a).texts[0] == ContentOf(b).texts[0];
      case BackendTLS(_, _, _) =>
        assert b.BackendTLS? && ContentOf(a) == ContentOf(b) ==>
          ContentOf(a).texts[0] == ContentOf(b).texts[0] && ContentOf(a).texts[1] == ContentOf(b).texts[1];
    }
  }

  lemma {:induction false} EqualsIsEquivalence(a: Feature, b: Feature, c: Feature)
    ensures Equals(a, a)
    ensures Equals(a, b) ==> Equals(b, a)
    ensures Equals(a, b) && Equals(b, c) ==> Equals(a, c)
  {
    EqualsMeaning(a, a);
    EqualsMeaning(a, b);
    EqualsMeaning(b, a);
    EqualsMeaning(b, c);
    EqualsMeaning(a, c);
  }

  // ---- merge ----

  /** RouteRuleAllIndex and ListenerAllIndex. */
  const ALL_INDEX: int := -1

  type FeatureMap = map<int, FeatureIR>

  ghost predicate AllEqual(m: FeatureMap) {
    forall i, j | i in m && j in m :: Equals(m[i].feature, m[j].feature)
  }

  /** The merge takes place: as many entries as rules, all of them equal. */
  ghost predicate Collapses(m: FeatureMap, n: nat) { |m| == n && AllEqual(m) }

  /** A possible result of the merge; which entry is kept depends on the map iteration. */
  ghost predicate Merged(m: FeatureMap, n: nat, r: FeatureMap) {
    if Collapses(m, n) then exists i | i in m :: r == map[ALL_INDEX := m[i]] else r == m
  }

  /** The loop of MergeExtensionFeature: the entries are visited in any order, each compared with the first. */
  method MergeEntries(efMap: FeatureMap, size: nat) returns (r: FeatureMap)
    requires efMap == map[] ==> size != 0
    ensures Merged(efMap, size, r)
  {
    if |efMap| != size {
      return efMap;
    }
    var todo := efMap.Keys;
    var firstIdx := Any(todo);
    todo := todo - {firstIdx};
    while todo != {}
      invariant todo <= efMap.Keys
      invariant forall i | i in efMap && i != firstIdx && i !in todo ::
                  Equals(efMap[firstIdx].feature, efMap[i].feature)
      decreases |todo|
    {
      var i := Any(todo);
      if !Equals(efMap[firstIdx].feature, efMap[i].feature) {
        return efMap;
      }
      todo := todo - {i};
    }
    AllEqualToFirst(efMap, firstIdx);
    return map[ALL_INDEX := efMap[firstIdx]];
  }

  /** An arbitrary element, as a map range yields it. */
  method Any<T(==)>(s: set<T>) returns (x: T)
    requires s != {}
    ensures x in s
  {
    x :| x in s;
  }

  /** ExtensionFeatureKey */
  datatype FeatureKey = CorsKey | IpRangeKey | RetryKey | RateLimitKey | TimeoutKey | BackendTLSKey

  /** The features of one Gateway, HTTPRoute or GRPCRoute; `size` is its number of listeners or rules. */
  class FeatureContext {
    var features: map<FeatureKey, FeatureMap>
    const size: nat

    constructor (size: nat)
      ensures features == map[] && this.size == size
    {
      this.size := size;
      features := map[];
    }

    /** MergeExtensionFeature, the same code for the three contexts. An entry without features on a context of size 0
        would make it dereference nil. */
    method MergeExtensionFeature(key: FeatureKey)
      requires key in features && features[key] == map[] ==> size != 0
      modifies this
      ensures key !in old(features) ==> features == old(features)
      ensures key in old(features) ==>
                features.Keys == old(features).Keys
                && Merged(old(features[key]), size, features[key])
                && forall k | k in features && k != key :: features[k] == old(features[k])
    {
      if key !in features {
        return;
      }
      var merged := MergeEntries(features[key], size);
      features := features[key := merged];
    }
  }

  lemma {:induction false} AllEqualToFirst(m: FeatureMap, first: int)
    requires first in m && forall i | i in m && i != first :: Equals(m[first].feature, m[i].feature)
    ensures AllEqual(m)
  {
    forall i, j | i in m && j in m ensures Equals(m[i].feature, m[j].feature) {
      EqualsIsEquivalence(m[first].feature, m[i].feature, m[j].feature);
      EqualsIsEquivalence(m[i].feature, m[first].feature, m[j].feature);
    }
  }

  /** The feature in effect for rule `i`: its own entry, else the entry for all. */
  ghost function Effective(m: FeatureMap, i: int): Option<Feature> {
    if i in m then Some(m[i].feature) else if ALL_INDEX in m then Some(m[ALL_INDEX].feature) else None
  }

  ghost predicate SameEffect(a: Option<Feature>, b: Option<Feature>) {
    (a.None? <==> b.None?) && (a.Some? ==> Equals(a.value, b.value))
  }

  /** The rule indices 0 .. n - 1. */
  ghost function Indices(n: nat): (s: set<int>)
    ensures |s| == n && forall i :: i in s <==> 0 <= i < n
  {
    if n == 0 then {} else Indices(n - 1) + {n - 1}
  }

  lemma {:induction false} SubsetOfSameSize<T>(a: set<T>, b: set<T>)
    requires a <= b && |a| == |b|
    ensures a == b
  {
    assert b == a + (b - a);
    assert |b - a| == 0;
  }

  /** Every rule has an effective feature. */
  ghost predicate Covers(m: FeatureMap, n: nat) { forall i | 0 <= i < n :: i in m || ALL_INDEX in m }

  /** The merge leaves every rule's effective feature as it was, whichever entry it kept, exactly when it does nothing
      or every rule had an effective feature. */
  lemma {:induction false} MergePreservesIff(m: FeatureMap, n: nat, r: FeatureMap)
    requires Merged(m, n, r)
    ensures (forall i | 0 <= i < n :: SameEffect(Effective(m, i), Effective(r, i))) <==>
            !Collapses(m, n) || Covers(m, n)
  {
    if Collapses(m, n) {
      var k :| k in m && r == map[ALL_INDEX := m[k]];
      if Covers(m, n) {
        forall i | 0 <= i < n ensures SameEffect(Effective(m, i), Effective(r, i)) {
          assert i in m || ALL_INDEX in m;
        }
      }
      if i :| 0 <= i < n && i !in m && ALL_INDEX !in m {
        assert !SameEffect(Effective(m, i), Effective(r, i));
      }
    } else {
      forall i | 0 <= i < n ensures SameEffect(Effective(m, i), Effective(r, i)) {
        if Effective(m, i).Some? {
          EqualsIsEquivalence(Effective(m, i).value, Effective(m, i).value, Effective(m, i).value);
        }
      }
    }
  }

  /** On rule indices the size test is a pigeonhole: the merge takes place iff every rule has an entry and all are
      equal, so it always preserves effective features. */
  lemma {:induction false} MergeOnRuleIndices(m: FeatureMap, n: nat, r: FeatureMap)
    requires m.Keys <= Indices(n) && Merged(m, n, r)
    ensures Collapses(m, n) <==> (forall i | 0 <= i < n :: i in m) && AllEqual(m)
    ensures forall i | 0 <= i < n :: SameEffect(Effective(m, i), Effective(r, i))
  {
    assert |m| == |m.Keys|;
    if |m| == n {
      SubsetOfSameSize(m.Keys, Indices(n));
    }
    if forall i | 0 <= i < n :: i in m {
      assert m.Keys == Indices(n);
    }
    MergePreservesIff(m, n, r);
  }

  /** Merging again changes nothing. */
  lemma {:induction false} MergeIdempotent(m: FeatureMap, n: nat, r: FeatureMap, s: FeatureMap)
    requires Merged(m, n, r) && Merged(r, n, s)
    ensures s == r
  {
  }

  /** Two iteration orders keep entries that are Equals, so the results agree up to Equals. */
  lemma {:induction false} MergeOrderIrrelevant(m: FeatureMap, n: nat, r: FeatureMap, s: FeatureMap)
    requires Merged(m, n, r) && Merged(m, n, s)
    ensures r.Keys == s.Keys && forall i | i in r :: Equals(r[i].feature, s[i].feature)
  {
    forall i | i in m ensures Equals(m[i].feature, m[i].feature) {
      EqualsIsEquivalence(m[i].feature, m[i].feature, m[i].feature);
    }
  }
}
