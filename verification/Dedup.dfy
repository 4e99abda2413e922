/** removeBackendRefsDuplicates: refs with equal keys become one, their int32 weights summed; the result comes out of a
    Go map, so in any order. */
module Dedup {
  import opened Text
  import opened Kube
  import opened Collect

  /** uniqueBackendRefsKey; its Namespace field is never filled in by the code. */
  datatype RefKey = RefKey(name: string, port: int, group: string, kind: string)

  function KeyOf(ref: BackendRef): RefKey {
    RefKey(ref.name,
           if ref.port.Some? then ref.port.value else 0,
           if ref.group.Some? && ref.group.value != "core" then ref.group.value else "",
           if ref.kind.Some? then ref.kind.value else "Service")
  }

  /** `ref` names the backend `k`: its name, its port with 0 for none, its group with none for the core group, and its
      kind with Service for none. */
  predicate RefersTo(ref: BackendRef, k: RefKey) {
    && ref.name == k.name
    && (match ref.port case None => k.port == 0 case Some(port) => k.port == port)
    && (match ref.group case None => k.group == "" case Some(group) => k.group == if group == "core" then "" else group)
    && (match ref.kind case None => k.kind == "Service" case Some(kind) => k.kind == kind)
  }

  /** The refs have one name, one port, one group and one kind. */
  predicate SameBackend(a: BackendRef, b: BackendRef) {
    && a.name == b.name
    && (a.port == b.port || (a.port in {None, Some(0)} && b.port in {None, Some(0)}))
    && (a.group == b.group || (a.group in {None, Some(""), Some("core")} && b.group in {None, Some(""), Some("core")}))
    && (a.kind == b.kind || (a.kind in {None, Some("Service")} && b.kind in {None, Some("Service")}))
  }

  /** Refs have one key iff they name one backend, and the key is that backend. */
  lemma {:induction false} KeyMeans(a: BackendRef, b: BackendRef, k: RefKey)
    ensures RefersTo(a, k) <==> KeyOf(a) == k
    ensures KeyOf(a) == KeyOf(b) <==> SameBackend(a, b)
  {
  }

  const INT32_LIMIT: int := 0x8000_0000

  /** Two's complement wrap-around of a Go int32. */
  function Wrap(x: int): int { (x + INT32_LIMIT) % (2 * INT32_LIMIT) - INT32_LIMIT }

  predicate InInt32(x: int) { -INT32_LIMIT <= x < INT32_LIMIT }

  /** Every weight is an int32. */
  predicate WeightsInInt32(refs: seq<BackendRef>) {
    forall i | 0 <= i < |refs| :: refs[i].weight.Some? ==> InInt32(refs[i].weight.value)
  }

  function AddWeights(a: Option<int>, b: Option<int>): Option<int> {
    if a.Some? && b.Some? then Some(Wrap(a.value + b.value)) else a
  }

  // ---- what the result is ----

  /** The sum of the weights that are set among the refs of a key. */
  function WeightSum(refs: seq<BackendRef>, k: RefKey): int {
    if refs == [] then 0
    else
      var r := refs[|refs| - 1];
      WeightSum(refs[..|refs| - 1], k) + (if KeyOf(r) == k && r.weight.Some? then r.weight.value else 0)
  }

  /** The first ref of a key, carrying the wrapped sum of the key's weights if it has a weight itself. */
  function MergedRef(refs: seq<BackendRef>, k: RefKey): BackendRef
    requires Select(refs, KeyOf, k) != []
  {
    Combined(Select(refs, KeyOf, k), WeightSum(refs, k))
  }

  function Combined(same: seq<BackendRef>, sum: int): BackendRef
    requires same != []
  {
    same[0].(weight := if same[0].weight.None? then None else Some(Wrap(sum)))
  }

  ghost predicate IsDedup(refs: seq<BackendRef>, out: seq<BackendRef>) {
    && (forall i, j | 0 <= i < j < |out| :: KeyOf(out[i]) != KeyOf(out[j]))
    && (forall i | 0 <= i < |out| ::
          Select(refs, KeyOf, KeyOf(out[i])) != [] && out[i] == MergedRef(refs, KeyOf(out[i])))
    && (forall i | 0 <= i < |refs| :: HasRef(out, KeyOf(refs[i])))
  }

  // ---- the loops ----

  ghost predicate Table(refs: seq<BackendRef>, m: map<RefKey, BackendRef>) {
    && (forall k :: k in m <==> Select(refs, KeyOf, k) != [])
    && (forall k | k in m :: m[k] == MergedRef(refs, k))
  }

  lemma {:induction false} WrapOfSum(a: int, b: int)
    requires InInt32(b)
    ensures Wrap(Wrap(a) + b) == Wrap(a + b)
    ensures Wrap(b) == b
    ensures InInt32(Wrap(a)) && (Wrap(a) - a) % 0x1_0000_0000 == 0
  {
  }

  lemma {:induction false} SumIfAbsent(refs: seq<BackendRef>, k: RefKey)
    requires Select(refs, KeyOf, k) == []
    ensures WeightSum(refs, k) == 0
  {
    if refs != [] {
      SumIfAbsent(refs[..|refs| - 1], k);
    }
  }

  /** `more` is `refs` with `r` after it, as far as keys and weights go. */
  ghost predicate Extends(refs: seq<BackendRef>, r: BackendRef, more: seq<BackendRef>) {
    forall j ::
      Select(more, KeyOf, j) == (if KeyOf(r) == j then Select(refs, KeyOf, j) + [r] else Select(refs, KeyOf, j))
                && WeightSum(more, j) ==
                     WeightSum(refs, j) + (if KeyOf(r) == j && r.weight.Some? then r.weight.value else 0)
  }

  lemma {:induction false} OneMoreRef(refs: seq<BackendRef>, i: nat)
    requires i < |refs|
    ensures Extends(refs[..i], refs[i], refs[..i + 1])
  {
    assert refs[..i + 1][..i] == refs[..i];
    forall j ensures Select(refs[..i], KeyOf, j) + [] == Select(refs[..i], KeyOf, j) {}
  }

  /** How one more ref changes the merged refs. */
  lemma {:induction false} MergedExtend(refs: seq<BackendRef>, more: seq<BackendRef>, r: BackendRef, j: RefKey)
    requires Extends(refs, r, more) && (r.weight.Some? ==> InInt32(r.weight.value))
    ensures Select(more, KeyOf, j) == [] <==> Select(refs, KeyOf, j) == [] && j != KeyOf(r)
    ensures Select(more, KeyOf, j) != [] ==> MergedRef(more, j) == NextMerged(refs, r, j)
  {
    if j == KeyOf(r) {
      MergedGrows(refs, more, r);
    }
  }

  lemma {:induction false} MergedGrows(refs: seq<BackendRef>, more: seq<BackendRef>, r: BackendRef)
    requires Extends(refs, r, more) && (r.weight.Some? ==> InInt32(r.weight.value))
    ensures Select(more, KeyOf, KeyOf(r)) != [] && MergedRef(more, KeyOf(r)) == NextMerged(refs, r, KeyOf(r))
  {
    if Select(refs, KeyOf, KeyOf(r)) == [] {
      SumIfAbsent(refs, KeyOf(r));
    }
    CombinedExtend(Select(refs, KeyOf, KeyOf(r)), WeightSum(refs, KeyOf(r)), r);
  }

  function NextMerged(refs: seq<BackendRef>, r: BackendRef, j: RefKey): BackendRef
    requires Select(refs, KeyOf, j) != [] || j == KeyOf(r)
  {
    if Select(refs, KeyOf, j) == [] then r
    else if j != KeyOf(r) then MergedRef(refs, j)
    else MergedRef(refs, j).(weight := AddWeights(MergedRef(refs, j).weight, r.weight))
  }

  lemma {:induction false} TableExtend(refs: seq<BackendRef>, more: seq<BackendRef>, m: map<RefKey, BackendRef>,
          r: BackendRef)
    requires Table(refs, m) && Extends(refs, r, more) && (r.weight.Some? ==> InInt32(r.weight.value))
    ensures var k := KeyOf(r);
            Table(more, if k in m then m[k := m[k].(weight := AddWeights(m[k].weight, r.weight))] else m[k := r])
  {
    forall j ensures Select(more, KeyOf, j) == [] <==> Select(refs, KeyOf, j) == [] && j != KeyOf(r)
             ensures Select(more, KeyOf, j) != [] ==> MergedRef(more, j) == NextMerged(refs, r, j)
    {
      MergedExtend(refs, more, r, j);
    }
  }

  /** The same for the refs of one key and the sum of their weights. */
  lemma {:induction false} CombinedExtend(same: seq<BackendRef>, sum: int, r: BackendRef)
    requires (r.weight.Some? ==> InInt32(r.weight.value)) && (same == [] ==> sum == 0)
    ensures Combined(same + [r], sum + if r.weight.Some? then r.weight.value else 0) ==
            if same == [] then r
            else Combined(same, sum).(weight := AddWeights(Combined(same, sum).weight, r.weight))
  {
    if r.weight.Some? {
      WrapOfSum(sum, r.weight.value);
    }
    assert (same + [r])[0] == if same == [] then r else same[0];
  }

  /** removeBackendRefsDuplicates */
  method RemoveBackendRefsDuplicates(refs: seq<BackendRef>) returns (result: seq<BackendRef>)
    requires WeightsInInt32(refs)
    ensures IsDedup(refs, result) && OnePerBackend(refs, result)
  {
    var unique: map<RefKey, BackendRef> := map[];
    for i := 0 to |refs|
      invariant Table(refs[..i], unique)
    {
      var k := KeyOf(refs[i]);
      OneMoreRef(refs, i);
      TableExtend(refs[..i], refs[..i + 1], unique, refs[i]);
      if k in unique {
        var oldRef := unique[k];
        if oldRef.weight.Some? && refs[i].weight.Some? {
          oldRef := oldRef.(weight := Some(Wrap(oldRef.weight.value + refs[i].weight.value)));
        }
        unique := unique[k := oldRef];
      } else {
        unique := unique[k := refs[i]];
      }
    }
    assert refs[..|refs|] == refs;
    result := Emptied(refs, unique);
    DedupMeans(refs, result);
  }

  /** The entries of the map for the given keys, each once, in some order. */
  ghost predicate ListsKeys(unique: map<RefKey, BackendRef>, keys: set<RefKey>, result: seq<BackendRef>) {
    && (forall i | 0 <= i < |result| :: KeyOf(result[i]) in keys && KeyOf(result[i]) in unique
                                        && result[i] == unique[KeyOf(result[i])])
    && (forall i, j | 0 <= i < j < |result| :: KeyOf(result[i]) != KeyOf(result[j]))
    && (forall k | k in keys :: HasRef(result, k))
  }

  ghost predicate HasRef(result: seq<BackendRef>, k: RefKey) {
    exists i | 0 <= i < |result| :: KeyOf(result[i]) == k
  }

  lemma {:induction false} ListsKeysMore(unique: map<RefKey, BackendRef>, keys: set<RefKey>, result: seq<BackendRef>,
          k: RefKey)
    requires ListsKeys(unique, keys, result) && k in unique && k !in keys && KeyOf(unique[k]) == k
    ensures ListsKeys(unique, keys + {k}, result + [unique[k]])
  {
    var more := result + [unique[k]];
    assert forall i | 0 <= i < |result| :: more[i] == result[i];
    assert KeyOf(more[|result|]) == k;
    forall j | j in keys ensures HasRef(more, j) {
      var i :| 0 <= i < |result| && KeyOf(result[i]) == j;
      assert KeyOf(more[i]) == j;
    }
    assert HasRef(more, k);
  }

  lemma {:induction false} ListedTableIsDedup(refs: seq<BackendRef>, unique: map<RefKey, BackendRef>,
          result: seq<BackendRef>)
    requires Table(refs, unique) && ListsKeys(unique, unique.Keys, result)
    ensures IsDedup(refs, result)
  {
    forall i | 0 <= i < |refs| ensures HasRef(result, KeyOf(refs[i])) {
      SelectMembers(refs, KeyOf, KeyOf(refs[i]));
      assert refs[i] in Select(refs, KeyOf, KeyOf(refs[i]));
    }
  }

  /** Ranging over the map of unique refs, in any order. */
  method Emptied(ghost refs: seq<BackendRef>, unique: map<RefKey, BackendRef>) returns (result: seq<BackendRef>)
    requires Table(refs, unique)
    ensures IsDedup(refs, result)
  {
    result := [];
    var todo := unique.Keys;
    ghost var done: set<RefKey> := {};
    while todo != {}
      invariant todo <= unique.Keys && done == unique.Keys - todo
      invariant ListsKeys(unique, done, result)
      decreases |todo|
    {
      var k :| k in todo;
      MergedRefKey(refs, k);
      ListsKeysMore(unique, done, result, k);
      result := result + [unique[k]];
      todo, done := todo - {k}, done + {k};
    }
    assert done == unique.Keys;
    ListedTableIsDedup(refs, unique, result);
  }

  lemma {:induction false} MergedRefKey(refs: seq<BackendRef>, k: RefKey)
    requires Select(refs, KeyOf, k) != []
    ensures KeyOf(MergedRef(refs, k)) == k
  {
    SelectMembers(refs, KeyOf, k);
    assert Select(refs, KeyOf, k)[0] in Select(refs, KeyOf, k);
  }

  /** Every backend the refs name has one ref, which differs from the first of its refs in the weight only. */
  ghost predicate OnePerBackend(refs: seq<BackendRef>, out: seq<BackendRef>) {
    && (forall i, j | 0 <= i < j < |out| :: !SameBackend(out[i], out[j]))
    && (forall r | r in refs :: exists o | o in out :: SameBackend(r, o))
    && (forall o | o in out :: FirstOfBackend(refs, o))
  }

  ghost predicate FirstOfBackend(refs: seq<BackendRef>, o: BackendRef) {
    exists i | 0 <= i < |refs| ::
      refs[i].(weight := o.weight) == o && forall j | 0 <= j < i :: !SameBackend(refs[j], o)
  }

  lemma {:induction false} SelectedFirst(refs: seq<BackendRef>, k: RefKey) returns (i: nat)
    requires Select(refs, KeyOf, k) != []
    ensures i < |refs| && refs[i] == Select(refs, KeyOf, k)[0] && KeyOf(refs[i]) == k
    ensures forall j | 0 <= j < i :: KeyOf(refs[j]) != k
  {
    var n := |refs| - 1;
    if Select(refs[..n], KeyOf, k) != [] {
      i := SelectedFirst(refs[..n], k);
    } else {
      i := n;
      SelectMembers(refs[..n], KeyOf, k);
      forall j | 0 <= j < n ensures KeyOf(refs[j]) != k {
        assert refs[..n][j] == refs[j] && refs[j] in refs[..n];
      }
    }
  }

  lemma {:induction false} DedupMeans(refs: seq<BackendRef>, out: seq<BackendRef>)
    requires IsDedup(refs, out)
    ensures OnePerBackend(refs, out)
  {
    forall i, j | 0 <= i < j < |out| ensures !SameBackend(out[i], out[j]) {
      KeyMeans(out[i], out[j], KeyOf(out[i]));
    }
    forall r | r in refs ensures exists o | o in out :: SameBackend(r, o) {
      var i :| 0 <= i < |refs| && refs[i] == r;
      assert HasRef(out, KeyOf(refs[i]));
      var j :| 0 <= j < |out| && KeyOf(out[j]) == KeyOf(r);
      KeyMeans(r, out[j], KeyOf(r));
    }
    forall o | o in out ensures FirstOfBackend(refs, o) {
      var i := SelectedFirst(refs, KeyOf(o));
      forall j | 0 <= j < i ensures !SameBackend(refs[j], o) {
        KeyMeans(refs[j], o, KeyOf(o));
      }
      assert refs[i].(weight := o.weight) == o;
    }
  }

  // ---- conservation ----

  /** The weight the Gateway API gives a ref: 1 when it is not set. */
  function Effective(r: BackendRef): int { if r.weight.Some? then r.weight.value else 1 }

  function KeyWeight(refs: seq<BackendRef>, k: RefKey): int {
    if refs == [] then 0
    else
      var r := refs[|refs| - 1];
      KeyWeight(refs[..|refs| - 1], k) + (if RefersTo(r, k) then Effective(r) else 0)
  }

  function TotalWeight(refs: seq<BackendRef>): int {
    if refs == [] then 0 else TotalWeight(refs[..|refs| - 1]) + Effective(refs[|refs| - 1])
  }

  function Unweighted(refs: seq<BackendRef>, k: RefKey): nat {
    if refs == [] then 0
    else
      var r := refs[|refs| - 1];
      Unweighted(refs[..|refs| - 1], k) + (if KeyOf(r) == k && r.weight.None? then 1 else 0)
  }

  lemma {:induction false} KeyWeightParts(refs: seq<BackendRef>, k: RefKey)
    ensures KeyWeight(refs, k) == WeightSum(refs, k) + Unweighted(refs, k)
  {
    if refs != [] {
      KeyWeightParts(refs[..|refs| - 1], k);
    }
  }

  lemma {:induction false} KeyWeightOne(out: seq<BackendRef>, i: nat)
    requires i < |out| && forall a, b | 0 <= a < b < |out| :: KeyOf(out[a]) != KeyOf(out[b])
    ensures KeyWeight(out, KeyOf(out[i])) == Effective(out[i])
  {
    var n := |out| - 1;
    if i < n {
      KeyWeightOne(out[..n], i);
    } else {
      KeyWeightNone(out[..n], KeyOf(out[n]));
    }
  }

  lemma {:induction false} KeyWeightNone(out: seq<BackendRef>, k: RefKey)
    requires forall i | 0 <= i < |out| :: KeyOf(out[i]) != k
    ensures KeyWeight(out, k) == 0
  {
    if out != [] {
      KeyWeightNone(out[..|out| - 1], k);
    }
  }

  /** What a key carries after de-duplication. */
  lemma {:induction false} DedupKeyWeight(refs: seq<BackendRef>, out: seq<BackendRef>, k: RefKey)
    requires IsDedup(refs, out)
    ensures Select(refs, KeyOf, k) == [] ==> KeyWeight(out, k) == 0
    ensures Select(refs, KeyOf, k) != [] ==> KeyWeight(out, k) == Effective(MergedRef(refs, k))
  {
    if j :| 0 <= j < |out| && KeyOf(out[j]) == k {
      KeyWeightOne(out, j);
    } else {
      KeyWeightNone(out, k);
      SelectMembers(refs, KeyOf, k);
      if Select(refs, KeyOf, k) != [] {
        assert Select(refs, KeyOf, k)[0] in refs;
      }
    }
  }

  /** An unweighted ref shares its key with nothing that weighs anything; or there is no unweighted ref. */
  predicate NoMixing(refs: seq<BackendRef>, k: RefKey) {
    Unweighted(refs, k) == 0 ||
    (Unweighted(refs, k) == 1 && WeightSum(refs, k) == 0 && Select(refs, KeyOf, k) != []
     && Select(refs, KeyOf, k)[0].weight.None?)
  }

  lemma {:induction false} UnweightedPositive(refs: seq<BackendRef>, k: RefKey)
    requires Select(refs, KeyOf, k) != []
    ensures Select(refs, KeyOf, k)[0].weight.None? ==> Unweighted(refs, k) >= 1
  {
    var t := refs[..|refs| - 1];
    if Select(t, KeyOf, k) != [] {
      UnweightedPositive(t, k);
    }
  }

  lemma {:induction false} SumNonNegative(refs: seq<BackendRef>, k: RefKey)
    requires forall i | 0 <= i < |refs| :: Effective(refs[i]) >= 0
    ensures WeightSum(refs, k) >= 0
  {
    if refs != [] {
      SumNonNegative(refs[..|refs| - 1], k);
    }
  }

  /** De-duplication keeps the weight of a key exactly when the key does not mix in unweighted refs (sums in int32). */
  lemma {:induction false} DedupKeepsWeightIff(refs: seq<BackendRef>, out: seq<BackendRef>, k: RefKey)
    requires IsDedup(refs, out)
    requires (forall i | 0 <= i < |refs| :: Effective(refs[i]) >= 0) && InInt32(WeightSum(refs, k))
    ensures KeyWeight(out, k) == KeyWeight(refs, k) <==> NoMixing(refs, k)
  {
    DedupKeyWeight(refs, out, k);
    KeyWeightParts(refs, k);
    SumNonNegative(refs, k);
    if Select(refs, KeyOf, k) != [] {
      UnweightedPositive(refs, k);
      WrapOfSum(0, WeightSum(refs, k));
    } else {
      SumIfAbsent(refs, k);
      UnweightedIfAbsent(refs, k);
    }
  }

  lemma {:induction false} UnweightedIfAbsent(refs: seq<BackendRef>, k: RefKey)
    requires Select(refs, KeyOf, k) == []
    ensures Unweighted(refs, k) == 0
  {
    if refs != [] {
      UnweightedIfAbsent(refs[..|refs| - 1], k);
    }
  }

  /** The weights of the refs, added up key by key for the keys of `out`. */
  function SumOverKeys(refs: seq<BackendRef>, out: seq<BackendRef>): int {
    if out == [] then 0
    else SumOverKeys(refs, out[..|out| - 1]) + KeyWeight(refs, KeyOf(out[|out| - 1]))
  }

  lemma {:induction false} HasRefSnoc(out: seq<BackendRef>, k: RefKey)
    requires out != []
    ensures var n := |out| - 1; HasRef(out, k) <==> HasRef(out[..n], k) || KeyOf(out[n]) == k
  {
    var t := out[..|out| - 1];
    if i :| 0 <= i < |out| && KeyOf(out[i]) == k {
      if i < |t| {
        assert KeyOf(t[i]) == k;
      }
    }
    if i :| 0 <= i < |t| && KeyOf(t[i]) == k {
      assert KeyOf(out[i]) == k;
    }
  }

  lemma {:induction false} KeyWeightSnoc(refs: seq<BackendRef>, r: BackendRef, k: RefKey)
    ensures KeyWeight(refs + [r], k) == KeyWeight(refs, k) + if KeyOf(r) == k then Effective(r) else 0
  {
    assert (refs + [r])[..|refs|] == refs;
  }

  lemma {:induction false} SumOverKeysSnoc(refs: seq<BackendRef>, r: BackendRef, out: seq<BackendRef>)
    requires forall i, j | 0 <= i < j < |out| :: KeyOf(out[i]) != KeyOf(out[j])
    ensures SumOverKeys(refs + [r], out) == SumOverKeys(refs, out) + (if HasRef(out, KeyOf(r)) then Effective(r) else 0)
  {
    if out != [] {
      var n := |out| - 1;
      SumOverKeysSnoc(refs, r, out[..n]);
      KeyWeightSnoc(refs, r, KeyOf(out[n]));
      HasRefSnoc(out, KeyOf(r));
      if HasRef(out[..n], KeyOf(r)) {
        var i :| 0 <= i < n && KeyOf(out[..n][i]) == KeyOf(r);
        assert KeyOf(out[i]) == KeyOf(r);
      }
    }
  }

  lemma {:induction false} TotalByKeys(refs: seq<BackendRef>, out: seq<BackendRef>)
    requires forall i, j | 0 <= i < j < |out| :: KeyOf(out[i]) != KeyOf(out[j])
    requires forall i | 0 <= i < |refs| :: HasRef(out, KeyOf(refs[i]))
    ensures TotalWeight(refs) == SumOverKeys(refs, out)
  {
    if refs == [] {
      SumOverNoRefs(out);
    } else {
      var t, r := refs[..|refs| - 1], refs[|refs| - 1];
      forall i | 0 <= i < |t| ensures HasRef(out, KeyOf(t[i])) {
        assert t[i] == refs[i];
      }
      TotalByKeys(t, out);
      SumOverKeysSnoc(t, r, out);
      ConcatSnoc([], refs);
      assert [] + t == t && [] + refs == refs;
    }
  }

  lemma {:induction false} SumOverNoRefs(out: seq<BackendRef>)
    ensures SumOverKeys([], out) == 0
  {
    if out != [] {
      SumOverNoRefs(out[..|out| - 1]);
    }
  }

  lemma {:induction false} SumOverKeysEqual(a: seq<BackendRef>, b: seq<BackendRef>, out: seq<BackendRef>)
    requires forall i | 0 <= i < |out| :: KeyWeight(a, KeyOf(out[i])) == KeyWeight(b, KeyOf(out[i]))
    ensures SumOverKeys(a, out) == SumOverKeys(b, out)
  {
    if out != [] {
      SumOverKeysEqual(a, b, out[..|out| - 1]);
    }
  }

  /** When no key mixes in unweighted refs, every key keeps its weight and the total is conserved. */
  lemma {:induction false} DedupConserves(refs: seq<BackendRef>, out: seq<BackendRef>)
    requires IsDedup(refs, out)
    requires forall i | 0 <= i < |refs| :: Effective(refs[i]) >= 0
    requires forall k :: NoMixing(refs, k) && InInt32(WeightSum(refs, k))
    ensures forall k :: KeyWeight(out, k) == KeyWeight(refs, k)
    ensures TotalWeight(out) == TotalWeight(refs)
  {
    forall k ensures KeyWeight(out, k) == KeyWeight(refs, k) {
      DedupKeepsWeightIff(refs, out, k);
    }
    TotalByKeys(refs, out);
    forall i | 0 <= i < |out| ensures HasRef(out, KeyOf(out[i])) {}
    TotalByKeys(out, out);
    SumOverKeysEqual(refs, out, out);
  }

}
