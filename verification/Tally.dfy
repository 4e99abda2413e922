/** Tables filled by key, where a later entry replaces an earlier one: what the table still holds, against what was put
    in. */
module Tally {

  datatype Entry<K, T> = Entry(key: K, content: multiset<T>)

  function LastWins<K, T>(es: seq<Entry<K, T>>): map<K, multiset<T>> {
    if es == [] then map[] else LastWins(es[..|es| - 1])[es[|es| - 1].key := es[|es| - 1].content]
  }

  function Total<K, T>(es: seq<Entry<K, T>>): multiset<T> {
    if es == [] then multiset{} else Total(es[..|es| - 1]) + es[|es| - 1].content
  }

  ghost function AnyKey<K, T>(m: map<K, multiset<T>>): (k: K)
    requires m != map[]
    ensures k in m
  {
    assert m.Keys != {};
    var k :| k in m;
    k
  }

  lemma {:induction false} RemoveShrinks<K, T>(m: map<K, multiset<T>>, k: K)
    requires k in m
    ensures (m - {k}).Keys == m.Keys - {k} && |m - {k}| < |m|
  {
    assert (m - {k}).Keys == m.Keys - {k};
    assert |m.Keys - {k}| < |m.Keys|;
    assert |m| == |m.Keys| && |m - {k}| == |(m - {k}).Keys|;
  }

  /** Everything the table holds. */
  ghost function MapSum<K, T>(m: map<K, multiset<T>>): multiset<T>
    decreases |m|
  {
    if m == map[] then multiset{}
    else
      RemoveShrinks(m, AnyKey(m));
      m[AnyKey(m)] + MapSum(m - {AnyKey(m)})
  }

  lemma {:induction false} MapSumRemove<K, T>(m: map<K, multiset<T>>, k: K)
    requires k in m
    ensures MapSum(m) == m[k] + MapSum(m - {k})
    decreases |m|
  {
    var x := AnyKey(m);
    if x != k {
      RemoveShrinks(m, x);
      RemoveShrinks(m, k);
      MapSumRemove(m - {x}, k);
      MapSumRemove(m - {k}, x);
      assert m - {x} - {k} == m - {k} - {x};
      assert m[x] + (m[k] + MapSum(m - {x} - {k})) == m[k] + (m[x] + MapSum(m - {x} - {k}));
    }
  }

  lemma {:induction false} MapSumUpdate<K, T>(m: map<K, multiset<T>>, k: K, c: multiset<T>)
    ensures MapSum(m[k := c]) + (if k in m then m[k] else multiset{}) == MapSum(m) + c
  {
    MapSumRemove(m[k := c], k);
    assert m[k := c] - {k} == m - {k};
    if k in m {
      MapSumRemove(m, k);
      assert (c + MapSum(m - {k})) + m[k] == (m[k] + MapSum(m - {k})) + c;
    } else {
      assert m - {k} == m;
    }
  }

  /** Entry `i` is replaced by a later one with its key. */
  ghost predicate Overwritten<K, T>(es: seq<Entry<K, T>>, i: nat) {
    i < |es| && exists j | i < j < |es| :: es[j].key == es[i].key
  }

  /** Every replaced entry was empty. */
  ghost predicate NothingLost<K(!new), T(!new)>(es: seq<Entry<K, T>>) {
    forall i: nat | Overwritten(es, i) :: es[i].content == multiset{}
  }

  lemma {:induction false} OverwrittenSnoc<K, T>(t: seq<Entry<K, T>>, e: Entry<K, T>, i: nat)
    requires i < |t|
    ensures Overwritten(t + [e], i) <==> Overwritten(t, i) || t[i].key == e.key
  {
    var es := t + [e];
    if Overwritten(t, i) {
      var j :| i < j < |t| && t[j].key == t[i].key;
      assert es[j].key == es[i].key;
    }
    if t[i].key == e.key {
      assert es[|t|].key == es[i].key;
    }
    if Overwritten(es, i) {
      var j :| i < j < |es| && es[j].key == es[i].key;
      assert j < |t| ==> t[j].key == t[i].key;
    }
  }

  /** The table's value for a key is its last entry. */
  lemma {:induction false} LastEntry<K(!new), T>(es: seq<Entry<K, T>>, k: K)
    ensures k in LastWins(es) <==> exists i: nat | i < |es| :: es[i].key == k
    ensures forall i: nat | i < |es| && es[i].key == k && !Overwritten(es, i) :: LastWins(es)[k] == es[i].content
    ensures k in LastWins(es) ==> exists i: nat | i < |es| :: es[i].key == k && !Overwritten(es, i)
  {
    if es != [] {
      var t, e := es[..|es| - 1], es[|es| - 1];
      LastEntry(t, k);
      assert es == t + [e];
      forall i: nat | i < |t| ensures Overwritten(es, i) <==> Overwritten(t, i) || t[i].key == e.key {
        OverwrittenSnoc(t, e, i);
      }
      if e.key == k {
        assert es[|t|].key == k && !Overwritten(es, |t|);
      } else if k in LastWins(t) {
        var i: nat :| i < |t| && t[i].key == k && !Overwritten(t, i);
        assert es[i].key == k;
      }
    }
  }

  /** The table never holds more than was put in, and holds exactly that iff every replaced entry was empty. */
  lemma {:induction false} TableAgainstEntries<K(!new), T(!new)>(es: seq<Entry<K, T>>)
    ensures MapSum(LastWins(es)) <= Total(es)
    ensures MapSum(LastWins(es)) == Total(es) <==> NothingLost(es)
  {
    if es != [] {
      var t, e := es[..|es| - 1], es[|es| - 1];
      TableAgainstEntries(t);
      MapSumUpdate(LastWins(t), e.key, e.content);
      NothingLostSnoc(t, e);
      assert es == t + [e];
      Balance(MapSum(LastWins(es)),
              if e.key in LastWins(t) then LastWins(t)[e.key] else multiset{},
              MapSum(LastWins(t)), Total(t), e.content);
    }
  }

  lemma {:induction false} Balance<T>(now: multiset<T>, lost: multiset<T>, before: multiset<T>, all: multiset<T>,
          added: multiset<T>)
    requires now + lost == before + added && before <= all
    ensures now <= all + added
    ensures now == all + added <==> before == all && lost == multiset{}
  {
    forall x ensures now[x] <= (all + added)[x] {
      assert (now + lost)[x] == (before + added)[x];
    }
    if now == all + added {
      forall x ensures before[x] == all[x] && lost[x] == 0 {
        assert (now + lost)[x] == (before + added)[x];
      }
    }
  }

  lemma {:induction false} NothingLostSnoc<K(!new), T(!new)>(t: seq<Entry<K, T>>, e: Entry<K, T>)
    ensures NothingLost(t + [e]) <==>
            NothingLost(t) && (e.key in LastWins(t) ==> LastWins(t)[e.key] == multiset{})
  {
    var es := t + [e];
    LastEntry(t, e.key);
    forall i: nat | i < |t| ensures Overwritten(es, i) <==> Overwritten(t, i) || t[i].key == e.key {
      OverwrittenSnoc(t, e, i);
    }
    if NothingLost(es) {
      forall i: nat | Overwritten(t, i) ensures t[i].content == multiset{} {
        assert Overwritten(es, i) && es[i] == t[i];
      }
      if e.key in LastWins(t) {
        var i: nat :| i < |t| && t[i].key == e.key && !Overwritten(t, i);
        assert Overwritten(es, i) && es[i] == t[i];
      }
    }
    if NothingLost(t) && (e.key in LastWins(t) ==> LastWins(t)[e.key] == multiset{}) {
      forall i: nat | Overwritten(es, i) ensures es[i].content == multiset{} {
        assert i < |t| && es[i] == t[i];
      }
    }
  }
}
