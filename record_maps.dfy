/** The collection of records a dataset hands out: the values of its
    id-to-record map, counted with multiplicity (two ids may map to equal
    records), in no particular order. */
module RecordMaps {

  /** The values `m` holds at `keys`, as a multiset. */
  ghost function ValuesOver<T>(m: map<string, T>, keys: set<string>): multiset<T>
    requires keys <= m.Keys
    decreases keys
  {
    if keys == {} then multiset{}
    else
      var k :| k in keys;
      multiset{m[k]} + ValuesOver(m, keys - {k})
  }

  /** All values of `m`, one occurrence per key. */
  ghost function ValuesOf<T>(m: map<string, T>): multiset<T>
  {
    ValuesOver(m, m.Keys)
  }

  /** Whichever key ValuesOver picks first, any key can be taken out first. */
  lemma {:induction false} ValuesOverRemove<T>(m: map<string, T>, keys: set<string>, k: string)
    requires keys <= m.Keys && k in keys
    ensures ValuesOver(m, keys) == multiset{m[k]} + ValuesOver(m, keys - {k})
    decreases keys
  {
    var j :| j in keys && ValuesOver(m, keys) == multiset{m[j]} + ValuesOver(m, keys - {j});
    if j != k {
      ValuesOverRemove(m, keys - {j}, k);
      ValuesOverRemove(m, keys - {k}, j);
      assert keys - {j} - {k} == keys - {k} - {j};
    }
  }

  /** ValuesOver sees only the entries at `keys`. */
  lemma {:induction false} ValuesOverAgree<T>(m1: map<string, T>, m2: map<string, T>, keys: set<string>)
    requires keys <= m1.Keys && keys <= m2.Keys
    requires forall k :: k in keys ==> m1[k] == m2[k]
    ensures ValuesOver(m1, keys) == ValuesOver(m2, keys)
    decreases keys
  {
    if keys != {} {
      var j :| j in keys;
      ValuesOverRemove(m1, keys, j);
      ValuesOverRemove(m2, keys, j);
      ValuesOverAgree(m1, m2, keys - {j});
    }
  }

  lemma {:induction false} ValuesOverSize<T>(m: map<string, T>, keys: set<string>)
    requires keys <= m.Keys
    ensures |ValuesOver(m, keys)| == |keys|
    decreases keys
  {
    if keys != {} {
      var j :| j in keys;
      ValuesOverRemove(m, keys, j);
      ValuesOverSize(m, keys - {j});
    }
  }

  lemma {:induction false} ValuesOverMembers<T>(m: map<string, T>, keys: set<string>, v: T)
    requires keys <= m.Keys
    ensures v in ValuesOver(m, keys) <==> exists k :: k in keys && m[k] == v
    decreases keys
  {
    if keys != {} {
      var j :| j in keys;
      ValuesOverRemove(m, keys, j);
      ValuesOverMembers(m, keys - {j}, v);
      if m[j] == v {
        assert j in keys && m[j] == v;
      }
    }
  }

  /** There are exactly as many values as keys. */
  lemma ValuesOfSize<T>(m: map<string, T>)
    ensures |ValuesOf(m)| == |m|
  {
    ValuesOverSize(m, m.Keys);
  }

  /** A value occurs in the collection exactly when some key maps to it. */
  lemma ValuesOfMembers<T>(m: map<string, T>, v: T)
    ensures v in ValuesOf(m) <==> v in m.Values
  {
    ValuesOverMembers(m, m.Keys, v);
  }

  /** Storing `v` at `k` contributes `v` once and drops whatever `k` held. */
  lemma ValuesOfStore<T>(m: map<string, T>, k: string, v: T)
    ensures ValuesOf(m[k := v]) == multiset{v} + ValuesOf(m - {k})
  {
    var stored := m[k := v];
    ValuesOverRemove(stored, stored.Keys, k);
    assert stored.Keys - {k} == (m - {k}).Keys;
    ValuesOverAgree(stored, m - {k}, (m - {k}).Keys);
  }

  /** Removing a present key removes one occurrence of its value. */
  lemma ValuesOfRemove<T>(m: map<string, T>, k: string)
    requires k in m
    ensures ValuesOf(m) == multiset{m[k]} + ValuesOf(m - {k})
  {
    ValuesOverRemove(m, m.Keys, k);
    assert m.Keys - {k} == (m - {k}).Keys;
    ValuesOverAgree(m, m - {k}, (m - {k}).Keys);
  }

  /** `records.Values.ToArray()`: every value of the map, once per key, in
      the dictionary's (unspecified) enumeration order. */
  method ValuesToArray<T>(records: map<string, T>) returns (values: seq<T>)
    ensures multiset(values) == ValuesOf(records)
    ensures |values| == |records|
  {
    var keys := records.Keys;
    values := [];
    while keys != {}
      invariant keys <= records.Keys
      invariant multiset(values) + ValuesOver(records, keys) == ValuesOf(records)
      decreases keys
    {
      var k :| k in keys;
      ValuesOverRemove(records, keys, k);
      values := values + [records[k]];
      keys := keys - {k};
    }
    ValuesOfSize(records);
  }
}
