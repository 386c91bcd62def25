/** Python's insertion-ordered dictionaries (`dict`, `OrderedDict`) with string keys,
    and the "append to the list under a key" idiom built on them. */
module OrderedMaps {

  /** `keys` lists the keys in insertion order; `vals` maps each key to its value. */
  datatype OrdMap<V> = OrdMap(keys: seq<string>, vals: map<string, V>)

  /** The keys are distinct and are exactly the domain of `vals`. */
  ghost predicate Wf<V>(m: OrdMap<V>)
  {
    && (forall i, j :: 0 <= i < j < |m.keys| ==> m.keys[i] != m.keys[j])
    && (forall k :: k in m.vals <==> k in m.keys)
  }

  /** `OrderedDict()` */
  function Empty<V>(): (m: OrdMap<V>)
    ensures Wf(m) && m.keys == [] && m.vals == map[]
  {
    OrdMap([], map[])
  }

  /** `len(d)` */
  function Size<V>(m: OrdMap<V>): nat
  {
    |m.keys|
  }

  /** `d[k] = v`: an existing key keeps its place and gets the new value; a new key goes last. */
  function Put<V>(m: OrdMap<V>, k: string, v: V): (r: OrdMap<V>)
    requires Wf(m)
    ensures Wf(r)
  {
    if k in m.vals then OrdMap(m.keys, m.vals[k := v])
    else OrdMap(m.keys + [k], m.vals[k := v])
  }

  /** The list stored under `k`, or the empty list when `k` is absent. */
  function ListAt<V>(m: OrdMap<seq<V>>, k: string): seq<V>
  {
    if k in m.vals then m.vals[k] else []
  }

  /** `if k in d: d[k].append(v) else: d[k] = [v]` */
  function AppendAt<V>(m: OrdMap<seq<V>>, k: string, v: V): (r: OrdMap<seq<V>>)
    requires Wf(m)
    ensures Wf(r)
  {
    Put(m, k, ListAt(m, k) + [v])
  }

  /** Appends every `(key, value)` pair, in order, to the list under its key. */
  function Group<V>(m: OrdMap<seq<V>>, pairs: seq<(string, V)>): (r: OrdMap<seq<V>>)
    requires Wf(m)
    ensures Wf(r)
    decreases |pairs|
  {
    if pairs == [] then m else Group(AppendAt(m, pairs[0].0, pairs[0].1), pairs[1..])
  }

  /** The values of the pairs whose key is `k`, in order. */
  function Select<V>(pairs: seq<(string, V)>, k: string): seq<V>
  {
    if pairs == [] then []
    else (if pairs[0].0 == k then [pairs[0].1] else []) + Select(pairs[1..], k)
  }

  /** The keys of the pairs, in order. */
  function KeysOf<V>(pairs: seq<(string, V)>): seq<string>
  {
    if pairs == [] then [] else [pairs[0].0] + KeysOf(pairs[1..])
  }

  /** `seen` followed by the keys of `ks` not seen before, in order of first appearance. */
  function FirstSeen(seen: seq<string>, ks: seq<string>): seq<string>
    decreases |ks|
  {
    if ks == [] then seen
    else FirstSeen(if ks[0] in seen then seen else seen + [ks[0]], ks[1..])
  }

  /** Sum of the list lengths under the given keys. */
  function TotalOver<V>(keys: seq<string>, vals: map<string, seq<V>>): nat
  {
    if keys == [] then 0
    else
      TotalOver(keys[..|keys| - 1], vals)
      + (if keys[|keys| - 1] in vals then |vals[keys[|keys| - 1]]| else 0)
  }

  /** Sum of the lengths of all lists of `m`. */
  function Total<V>(m: OrdMap<seq<V>>): nat
  {
    TotalOver(m.keys, m.vals)
  }

  lemma {:induction false} GroupConcat<V>(m: OrdMap<seq<V>>, a: seq<(string, V)>, b: seq<(string, V)>)
    requires Wf(m)
    ensures Group(m, a + b) == Group(Group(m, a), b)
    decreases |a|
  {
    if a != [] {
      assert (a + b)[0] == a[0];
      assert (a + b)[1..] == a[1..] + b;
      GroupConcat(AppendAt(m, a[0].0, a[0].1), a[1..], b);
    } else {
      assert a + b == b;
    }
  }

  /** Grouping one more pair of a prefix appends that pair's value under its key. */
  lemma GroupStep<V>(m: OrdMap<seq<V>>, pairs: seq<(string, V)>, i: nat)
    requires Wf(m) && i < |pairs|
    ensures Group(m, pairs[..i + 1]) == AppendAt(Group(m, pairs[..i]), pairs[i].0, pairs[i].1)
  {
    GroupConcat(m, pairs[..i], [pairs[i]]);
    assert pairs[..i + 1] == pairs[..i] + [pairs[i]];
    var g := Group(m, pairs[..i]);
    assert Group(g, [pairs[i]]) == Group(AppendAt(g, pairs[i].0, pairs[i].1), []);
  }

  lemma ListAtAppendAt<V>(m: OrdMap<seq<V>>, k: string, v: V, j: string)
    requires Wf(m)
    ensures ListAt(AppendAt(m, k, v), j) == ListAt(m, j) + (if k == j then [v] else [])
  {
    if k != j {
      assert ListAt(m, j) + [] == ListAt(m, j);
    }
  }

  /** Grouping puts under each key exactly the values of the pairs with that key, in input order. */
  lemma {:induction false} GroupSelect<V>(m: OrdMap<seq<V>>, pairs: seq<(string, V)>, k: string)
    requires Wf(m)
    ensures ListAt(Group(m, pairs), k) == ListAt(m, k) + Select(pairs, k)
    decreases |pairs|
  {
    if pairs == [] {
      assert ListAt(m, k) + [] == ListAt(m, k);
    } else {
      var m' := AppendAt(m, pairs[0].0, pairs[0].1);
      var rest := pairs[1..];
      var here := if pairs[0].0 == k then [pairs[0].1] else [];
      calc {
        ListAt(Group(m, pairs), k);
        ListAt(Group(m', rest), k);
        { GroupSelect(m', rest, k); }
        ListAt(m', k) + Select(rest, k);
        { ListAtAppendAt(m, pairs[0].0, pairs[0].1, k); }
        ListAt(m, k) + here + Select(rest, k);
        ListAt(m, k) + (here + Select(rest, k));
        ListAt(m, k) + Select(pairs, k);
      }
    }
  }

  /** Grouped from an empty dictionary, the list under `k` is exactly the values paired with `k`. */
  lemma GroupEmptySelect<V>(pairs: seq<(string, V)>, k: string)
    ensures ListAt(Group(Empty(), pairs), k) == Select(pairs, k)
  {
    GroupSelect(Empty(), pairs, k);
    assert ListAt(Empty<seq<V>>(), k) == [];
  }

  /** Grouping creates a list exactly for the keys named by some pair. */
  lemma {:induction false} GroupDomain<V>(m: OrdMap<seq<V>>, pairs: seq<(string, V)>, k: string)
    requires Wf(m)
    ensures k in Group(m, pairs).vals <==> k in m.vals || k in KeysOf(pairs)
    decreases |pairs|
  {
    if pairs != [] {
      var m' := AppendAt(m, pairs[0].0, pairs[0].1);
      GroupDomain(m', pairs[1..], k);
      assert KeysOf(pairs) == [pairs[0].0] + KeysOf(pairs[1..]);
    }
  }

  /** The groups appear in order of the first pair that names them. */
  lemma {:induction false} GroupKeys<V>(m: OrdMap<seq<V>>, pairs: seq<(string, V)>)
    requires Wf(m)
    ensures Group(m, pairs).keys == FirstSeen(m.keys, KeysOf(pairs))
    decreases |pairs|
  {
    if pairs != [] {
      var m' := AppendAt(m, pairs[0].0, pairs[0].1);
      assert m'.keys == if pairs[0].0 in m.keys then m.keys else m.keys + [pairs[0].0];
      GroupKeys(m', pairs[1..]);
      assert KeysOf(pairs) == [pairs[0].0] + KeysOf(pairs[1..]);
    }
  }

  /** Changing the list under a key that is not listed leaves the total unchanged. */
  lemma {:induction false} TotalOverOther<V>(keys: seq<string>, vals: map<string, seq<V>>, k: string, x: seq<V>)
    requires k !in keys
    ensures TotalOver(keys, vals[k := x]) == TotalOver(keys, vals)
  {
    if keys != [] {
      TotalOverOther(keys[..|keys| - 1], vals, k, x);
    }
  }

  /** Changing the list under a key listed once changes the total by the difference of lengths. */
  lemma {:induction false} TotalOverUpdate<V>(keys: seq<string>, vals: map<string, seq<V>>, k: string, x: seq<V>)
    requires k in vals
    requires forall i, j :: 0 <= i < j < |keys| ==> keys[i] != keys[j]
    ensures k in keys ==> TotalOver(keys, vals[k := x]) + |vals[k]| == TotalOver(keys, vals) + |x|
  {
    if keys != [] {
      var init := keys[..|keys| - 1];
      var last := keys[|keys| - 1];
      if last == k {
        assert k !in init by {
          forall i | 0 <= i < |init| ensures init[i] != k {
            assert keys[i] != keys[|keys| - 1];
          }
        }
        TotalOverOther(init, vals, k, x);
      } else {
        assert k in keys ==> k in init by {
          if k in keys {
            var i :| 0 <= i < |keys| && keys[i] == k;
            assert i < |keys| - 1;
            assert init[i] == k;
          }
        }
        TotalOverUpdate(init, vals, k, x);
      }
    }
  }

  /** Every grouped pair lands in exactly one list: the group sizes add up to the number of pairs. */
  lemma {:induction false} GroupTotal<V>(m: OrdMap<seq<V>>, pairs: seq<(string, V)>)
    requires Wf(m)
    ensures Total(Group(m, pairs)) == Total(m) + |pairs|
    decreases |pairs|
  {
    if pairs != [] {
      var k, v := pairs[0].0, pairs[0].1;
      var m' := AppendAt(m, k, v);
      AppendAtTotal(m, k, v);
      calc {
        Total(Group(m, pairs));
        Total(Group(m', pairs[1..]));
        { GroupTotal(m', pairs[1..]); }
        Total(m') + |pairs[1..]|;
        Total(m) + |pairs|;
      }
    }
  }

  lemma AppendAtTotal<V>(m: OrdMap<seq<V>>, k: string, v: V)
    requires Wf(m)
    ensures Total(AppendAt(m, k, v)) == Total(m) + 1
  {
    if k in m.vals {
      assert k in m.keys;
      assert AppendAt(m, k, v) == OrdMap(m.keys, m.vals[k := m.vals[k] + [v]]);
      TotalOverUpdate(m.keys, m.vals, k, m.vals[k] + [v]);
    } else {
      var keys' := m.keys + [k];
      assert ListAt(m, k) + [v] == [v];
      assert AppendAt(m, k, v) == OrdMap(keys', m.vals[k := [v]]);
      assert keys'[..|keys'| - 1] == m.keys;
      assert TotalOver(keys', m.vals[k := [v]]) == TotalOver(m.keys, m.vals[k := [v]]) + 1;
      assert k !in m.keys;
      TotalOverOther(m.keys, m.vals, k, [v]);
    }
  }
}
