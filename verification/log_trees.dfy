/** Run logs as loaded from YAML: nested ordered dictionaries whose leaves are scalars,
    and the recursive discovery of their `epochs` nodes (`epoch_nodes`). */
module LogTrees {
  import opened Wrappers
  import opened OrderedMaps

  /** A log value: a scalar (kept as its text) or an `OrderedDict` of further values. */
  datatype Tree = Leaf(text: string) | Node(dict: OrdMap<Tree>)

  /** Every dictionary in the tree has distinct keys, as Python dictionaries do. */
  ghost predicate WfTree(t: Tree)
    decreases t
  {
    t.Node? ==> Wf(t.dict) && forall k | k in t.dict.vals :: WfTree(t.dict.vals[k])
  }

  /** `isinstance(v, OrderedDict) and len(v) and '0' in v` */
  predicate IsEpochsNode(v: Tree)
  {
    v.Node? && |v.dict.keys| > 0 && "0" in v.dict.vals
  }

  /** The value reached from `t` by following the keys of `path`, if every step exists. */
  function At(t: Tree, path: seq<string>): Option<Tree>
    decreases |path|
  {
    if path == [] then Some(t)
    else if t.Node? && path[0] in t.dict.vals then At(t.dict.vals[path[0]], path[1..])
    else None
  }

  ghost predicate EpochsAt(t: Tree, path: seq<string>)
  {
    At(t, path).Some? && IsEpochsNode(At(t, path).value)
  }

  /** The specification of `epoch_nodes`: `v` is an epochs node stored under key `epochs` of the
      dictionary at `p`, and the search never had to pass through another epochs node to get there. */
  ghost predicate Yields(t: Tree, p: seq<string>, v: Tree)
  {
    && At(t, p + ["epochs"]) == Some(v)
    && IsEpochsNode(v)
    && forall j | 0 <= j < |p| :: !(p[j] == "epochs" && EpochsAt(t, p[..j + 1]))
  }

  /** `epoch_nodes(node, path)` from the `i`-th key of `t` on: a depth-first walk that reports an
      epochs node together with the path of the dictionary holding it, and descends into every other
      dictionary with the key appended to the path. */
  function EpochNodesFrom(t: Tree, i: nat, path: seq<string>): (r: seq<(seq<string>, Tree)>)
    requires t.Node?
    ensures forall j | 0 <= j < |r| :: IsEpochsNode(r[j].1) && path <= r[j].0
    decreases t, |t.dict.keys| - i
  {
    if i >= |t.dict.keys| then []
    else
      var k := t.dict.keys[i];
      var here :=
        if k !in t.dict.vals then []
        else
          var v := t.dict.vals[k];
          if k == "epochs" && IsEpochsNode(v) then [(path, v)]
          else if v.Node? then EpochNodesFrom(v, 0, path + [k])
          else [];
      here + EpochNodesFrom(t, i + 1, path)
  }

  /** `list(epoch_nodes(log))` */
  function EpochNodes(log: Tree): (r: seq<(seq<string>, Tree)>)
    requires log.Node?
    ensures forall j | 0 <= j < |r| :: IsEpochsNode(r[j].1)
  {
    EpochNodesFrom(log, 0, [])
  }

  lemma AtCons(t: Tree, k: string, rest: seq<string>)
    requires t.Node? && k in t.dict.vals
    ensures At(t, [k] + rest) == At(t.dict.vals[k], rest)
  {
    assert ([k] + rest)[1..] == rest;
  }

  /** The `j`-th prefix check of a path through key `k` is the `(j-1)`-th check below `k`. */
  lemma PrefixStep(t: Tree, k: string, s: seq<string>, j: nat)
    requires t.Node? && k in t.dict.vals
    requires 1 <= j <= |s|
    ensures ([k] + s)[j] == s[j - 1]
    ensures EpochsAt(t, ([k] + s)[..j + 1]) == EpochsAt(t.dict.vals[k], s[..j])
  {
    assert ([k] + s)[..j + 1] == [k] + s[..j];
    AtCons(t, k, s[..j]);
  }

  /** A path that passes through key `k` of `t` yields exactly what the rest of the path yields
      below `k`, unless `k` itself holds an epochs node (which stops the descent). */
  lemma YieldsStep(t: Tree, k: string, s: seq<string>, v: Tree)
    requires t.Node? && k in t.dict.vals
    ensures Yields(t, [k] + s, v) <==>
              !(k == "epochs" && IsEpochsNode(t.dict.vals[k])) && Yields(t.dict.vals[k], s, v)
  {
    var c := t.dict.vals[k];
    var p := [k] + s;
    assert p + ["epochs"] == [k] + (s + ["epochs"]);
    AtCons(t, k, s + ["epochs"]);
    assert p[..1] == [k] + [];
    AtCons(t, k, []);
    assert EpochsAt(t, p[..1]) == IsEpochsNode(c);
    if Yields(t, p, v) {
      forall j | 0 <= j < |s| ensures !(s[j] == "epochs" && EpochsAt(c, s[..j + 1])) {
        PrefixStep(t, k, s, j + 1);
        assert !(p[j + 1] == "epochs" && EpochsAt(t, p[..j + 2]));
      }
    }
    if !(k == "epochs" && IsEpochsNode(c)) && Yields(c, s, v) {
      forall j | 0 <= j < |p| ensures !(p[j] == "epochs" && EpochsAt(t, p[..j + 1])) {
        if j > 0 {
          PrefixStep(t, k, s, j);
          assert !(s[j - 1] == "epochs" && EpochsAt(c, s[..j]));
        }
      }
    }
  }

  /** What `Yields` finds lies under one of the keys of `t`. */
  lemma YieldsFirstKey(t: Tree, s: seq<string>, v: Tree)
    requires Yields(t, s, v)
    ensures t.Node? && (s + ["epochs"])[0] in t.dict.vals
  {
  }

  lemma InTail(keys: seq<string>, i: nat, f: string)
    requires i < |keys|
    requires forall a, b :: 0 <= a < b < |keys| ==> keys[a] != keys[b]
    ensures f in keys[i..] <==> f == keys[i] || f in keys[i + 1..]
    ensures f == keys[i] ==> f !in keys[i + 1..]
  {
    assert keys[i..] == [keys[i]] + keys[i + 1..];
  }

  /** `q` extends `path`, and the rest of `q` leads through key `k` of `t` to the epochs node `v`. */
  ghost predicate Through(t: Tree, path: seq<string>, q: seq<string>, v: Tree, k: string)
  {
    && |path| <= |q| && q[..|path|] == path
    && Yields(t, q[|path|..], v)
    && (q[|path|..] + ["epochs"])[0] == k
  }

  /** An epochs node under key `epochs` is reported with the path of its parent, and is the only
      thing found through that key. */
  lemma ThroughEpochs(t: Tree, path: seq<string>, q: seq<string>, v: Tree)
    requires t.Node? && "epochs" in t.dict.vals && IsEpochsNode(t.dict.vals["epochs"])
    ensures (q, v) in [(path, t.dict.vals["epochs"])] <==> Through(t, path, q, v, "epochs")
  {
    var c := t.dict.vals["epochs"];
    if (q, v) in [(path, c)] {
      assert q[..|path|] == path && q[|path|..] == [];
      assert [] + ["epochs"] == ["epochs"] + [];
      AtCons(t, "epochs", []);
    }
    if Through(t, path, q, v, "epochs") {
      var s := q[|path|..];
      if s != [] {
        assert s == ["epochs"] + s[1..];
        YieldsStep(t, "epochs", s[1..], v);
        assert false;
      }
      assert q == q[..|path|] + s;
      assert s + ["epochs"] == ["epochs"] + [];
      AtCons(t, "epochs", []);
      assert v == c && q == path;
    }
  }

  /** A nested dictionary under key `k` reports, below `path + [k]`, exactly what is found through `k`. */
  lemma ThroughChild(t: Tree, k: string, path: seq<string>, q: seq<string>, v: Tree)
    requires t.Node? && k in t.dict.vals && t.dict.vals[k].Node?
    requires !(k == "epochs" && IsEpochsNode(t.dict.vals[k]))
    ensures (&& |path + [k]| <= |q| && q[..|path + [k]|] == path + [k]
             && Yields(t.dict.vals[k], q[|path + [k]|..], v)
             && (q[|path + [k]|..] + ["epochs"])[0] in t.dict.vals[k].dict.vals)
            <==> Through(t, path, q, v, k)
  {
    var c := t.dict.vals[k];
    var pk := path + [k];
    if |pk| <= |q| && q[..|pk|] == pk && Yields(c, q[|pk|..], v) {
      var s := q[|path|..];
      assert q[..|path|] == pk[..|path|] == path;
      assert s == [k] + q[|pk|..];
      YieldsStep(t, k, q[|pk|..], v);
    }
    if Through(t, path, q, v, k) {
      var s := q[|path|..];
      if s == [] {
        assert k == "epochs";
        assert [] + ["epochs"] == ["epochs"] + [];
        AtCons(t, "epochs", []);
        assert false;
      }
      assert s == [k] + s[1..];
      YieldsStep(t, k, s[1..], v);
      YieldsFirstKey(c, s[1..], v);
      assert q == path + s;
      assert q[..|pk|] == pk;
      assert q[|pk|..] == s[1..];
    }
  }

  /** Nothing is found through a key holding a scalar. */
  lemma ThroughLeaf(t: Tree, k: string, path: seq<string>, q: seq<string>, v: Tree)
    requires t.Node? && k in t.dict.vals && t.dict.vals[k].Leaf?
    ensures !Through(t, path, q, v, k)
  {
    if Through(t, path, q, v, k) {
      var s := q[|path|..];
      if s == [] {
        assert [] + ["epochs"] == ["epochs"] + [];
        AtCons(t, k, []);
        assert false;
      }
      assert s + ["epochs"] == [k] + (s[1..] + ["epochs"]);
      AtCons(t, k, s[1..] + ["epochs"]);
      assert false;
    }
  }

  /** The general form of `EpochNodesExactly`, for the walk started at key `i` under `path`. */
  lemma {:induction false} EpochNodesFromExactly(t: Tree, i: nat, path: seq<string>, q: seq<string>, v: Tree)
    requires WfTree(t) && t.Node? && i <= |t.dict.keys|
    ensures (q, v) in EpochNodesFrom(t, i, path) <==>
              && |path| <= |q| && q[..|path|] == path
              && Yields(t, q[|path|..], v)
              && (q[|path|..] + ["epochs"])[0] in t.dict.keys[i..]
    decreases t, |t.dict.keys| - i
  {
    var keys := t.dict.keys;
    if i < |keys| {
      var k := keys[i];
      assert k in t.dict.vals;
      var c := t.dict.vals[k];
      EpochNodesFromExactly(t, i + 1, path, q, v);
      var here := if k == "epochs" && IsEpochsNode(c) then [(path, c)]
                  else if c.Node? then EpochNodesFrom(c, 0, path + [k])
                  else [];
      assert EpochNodesFrom(t, i, path) == here + EpochNodesFrom(t, i + 1, path);
      if k == "epochs" && IsEpochsNode(c) {
        ThroughEpochs(t, path, q, v);
      } else if c.Node? {
        EpochNodesFromExactly(c, 0, path + [k], q, v);
        assert c.dict.keys[0..] == c.dict.keys;
        ThroughChild(t, k, path, q, v);
      } else {
        ThroughLeaf(t, k, path, q, v);
      }
      assert (q, v) in here <==> Through(t, path, q, v, k);
      if |path| <= |q| && q[..|path|] == path {
        InTail(keys, i, (q[|path|..] + ["epochs"])[0]);
      }
    }
  }

  /** `epoch_nodes` yields `(p, v)` exactly when `v` is an epochs node under key `epochs` of the
      dictionary at `p` and no epochs node lies on the way to it. */
  lemma EpochNodesExactly(log: Tree, p: seq<string>, v: Tree)
    requires WfTree(log) && log.Node?
    ensures (p, v) in EpochNodes(log) <==> Yields(log, p, v)
  {
    EpochNodesFromExactly(log, 0, [], p, v);
    assert p[..0] == [] && p[0..] == p;
    assert log.dict.keys[0..] == log.dict.keys;
    if Yields(log, p, v) {
      YieldsFirstKey(log, p, v);
    }
  }
}
