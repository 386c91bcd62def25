/** Grouping run logs that differ only by seed (`group_multi_runs`) and collating their epochs
    nodes by path (`collect_epoch_nodes`). */
module RunGroups {
  import opened OrderedMaps
  import opened Text
  import opened LogTrees
  import opened RunKeys

  /** The `(seed-less key, log)` pairs of `logs`, in iteration order. */
  function SeedlessPairs(logs: OrdMap<Tree>): (r: seq<(string, Tree)>)
    requires Wf(logs)
    ensures |r| == |logs.keys|
    ensures forall j | 0 <= j < |r| :: r[j] == (RemoveSeedPart(logs.keys[j]), logs.vals[logs.keys[j]])
  {
    seq(|logs.keys|, j requires 0 <= j < |logs.keys| =>
      (RemoveSeedPart(logs.keys[j]), logs.vals[logs.keys[j]]))
  }

  /** `group_multi_runs(logs)`: each log is appended to the list under its seed-less key. */
  method GroupMultiRuns(logs: OrdMap<Tree>) returns (result: OrdMap<seq<Tree>>)
    requires Wf(logs)
    ensures Wf(result)
    ensures result == Group(Empty(), SeedlessPairs(logs))
    ensures result.keys == FirstSeen([], KeysOf(SeedlessPairs(logs)))
    ensures Total(result) == |logs.keys|
  {
    var pairs := SeedlessPairs(logs);
    result := Empty();
    for i := 0 to |logs.keys|
      invariant result == Group(Empty(), pairs[..i])
    {
      var key := logs.keys[i];
      var seedLessKey := RemoveSeedPart(key);
      GroupStep(Empty(), pairs, i);
      result := AppendAt(result, seedLessKey, logs.vals[key]);
    }
    assert pairs[..|logs.keys|] == pairs;
    GroupedPairs(pairs);
  }

  /** Grouping pairs from an empty dictionary: the keys come in order of first appearance, and
      every pair lands in exactly one list. */
  lemma GroupedPairs(pairs: seq<(string, Tree)>)
    ensures var r := Group(Empty(), pairs);
            && r.keys == FirstSeen([], KeysOf(pairs))
            && Total(r) == |pairs|
  {
    GroupKeys(Empty(), pairs);
    GroupTotal(Empty<seq<Tree>>(), pairs);
  }

  /** The list of group `g` of `group_multi_runs` holds the logs whose seed-less key is `g`, in
      the order of the input. */
  lemma GroupMultiRunsLists(logs: OrdMap<Tree>, g: string)
    requires Wf(logs)
    ensures ListAt(Group(Empty(), SeedlessPairs(logs)), g) == Select(SeedlessPairs(logs), g)
  {
    GroupEmptySelect(SeedlessPairs(logs), g);
  }

  /** Every log lands in the list of `group_multi_runs` named by its seed-less key. */
  lemma GroupMultiRunsPlacement(logs: OrdMap<Tree>, g: string, j: nat)
    requires Wf(logs) && j < |logs.keys|
    ensures RemoveSeedPart(logs.keys[j]) == g ==>
              logs.vals[logs.keys[j]] in ListAt(Group(Empty(), SeedlessPairs(logs)), g)
  {
    var pairs := SeedlessPairs(logs);
    SelectContains(pairs, g, j);
    GroupEmptySelect(pairs, g);
  }

  lemma {:induction false} SelectContains<V>(pairs: seq<(string, V)>, g: string, j: nat)
    requires j < |pairs|
    ensures pairs[j].0 == g ==> pairs[j].1 in Select(pairs, g)
    decreases j
  {
    if j > 0 {
      SelectContains(pairs[1..], g, j - 1);
    }
  }

  /** The `('/'.join(path), node)` pairs of one log, in the order `epoch_nodes` yields them. */
  function LogPairs(log: Tree): (r: seq<(string, Tree)>)
    requires log.Node?
    ensures |r| == |EpochNodes(log)|
    ensures forall m | 0 <= m < |r| :: r[m] == (Join("/", EpochNodes(log)[m].0), EpochNodes(log)[m].1)
  {
    var found := EpochNodes(log);
    seq(|found|, m requires 0 <= m < |found| => (Join("/", found[m].0), found[m].1))
  }

  predicate AllNodes(logs: seq<Tree>)
  {
    forall j | 0 <= j < |logs| :: logs[j].Node?
  }

  /** The pairs of all logs of a group, log after log. */
  function PathPairs(logs: seq<Tree>): seq<(string, Tree)>
    requires AllNodes(logs)
  {
    if logs == [] then [] else PathPairs(logs[..|logs| - 1]) + LogPairs(logs[|logs| - 1])
  }

  /** The collation of one group of logs: epochs nodes grouped by their `/`-joined path. */
  function Collate(logs: seq<Tree>): (r: OrdMap<seq<Tree>>)
    requires AllNodes(logs)
    ensures Wf(r)
  {
    Group(Empty(), PathPairs(logs))
  }

  /** The innermost loop of `collect_epoch_nodes`: the epochs nodes of one log, appended in
      discovery order to the list under their joined path. */
  method AppendLogNodes(collatedLogs: OrdMap<seq<Tree>>, log: Tree) returns (r: OrdMap<seq<Tree>>)
    requires Wf(collatedLogs) && log.Node?
    ensures r == Group(collatedLogs, LogPairs(log))
  {
    var found := EpochNodes(log);
    ghost var pairs := LogPairs(log);
    r := collatedLogs;
    for m := 0 to |found|
      invariant Wf(r) && r == Group(collatedLogs, pairs[..m])
    {
      var pathKey := Join("/", found[m].0);
      GroupStep(collatedLogs, pairs, m);
      r := AppendAt(r, pathKey, found[m].1);
    }
    assert pairs[..|found|] == pairs;
  }

  /** The body of the outer loop of `collect_epoch_nodes`: the epochs nodes of every log of one
      group, log after log. */
  method CollateGroup(logs: seq<Tree>) returns (collatedLogs: OrdMap<seq<Tree>>)
    requires AllNodes(logs)
    ensures collatedLogs == Collate(logs)
  {
    collatedLogs := Empty();
    for j := 0 to |logs|
      invariant collatedLogs == Group(Empty(), PathPairs(logs[..j]))
    {
      GroupConcat(Empty(), PathPairs(logs[..j]), LogPairs(logs[j]));
      assert logs[..j + 1][..j] == logs[..j];
      collatedLogs := AppendLogNodes(collatedLogs, logs[j]);
    }
    assert logs[..|logs|] == logs;
  }

  /** `collect_epoch_nodes(grouped_logs)`: the same groups, in the same order, each collated. */
  method CollectEpochNodes(grouped: OrdMap<seq<Tree>>) returns (collated: OrdMap<OrdMap<seq<Tree>>>)
    requires Wf(grouped)
    requires forall g | g in grouped.vals :: AllNodes(grouped.vals[g])
    ensures Wf(collated)
    ensures collated.keys == grouped.keys
    ensures forall g | g in grouped.vals :: collated.vals[g] == Collate(grouped.vals[g])
  {
    collated := Empty();
    for i := 0 to |grouped.keys|
      invariant Collated(grouped, collated, i)
    {
      collated := CollateNext(grouped, collated, i);
    }
    assert grouped.keys[..|grouped.keys|] == grouped.keys;
  }

  /** `collated` holds the first `i` groups of `grouped`, in order, each collated. */
  ghost predicate Collated(grouped: OrdMap<seq<Tree>>, collated: OrdMap<OrdMap<seq<Tree>>>, i: nat)
  {
    && i <= |grouped.keys| && Wf(collated)
    && collated.keys == grouped.keys[..i]
    && forall g | g in collated.vals :: g in grouped.vals && AllNodes(grouped.vals[g]) && collated.vals[g] == Collate(grouped.vals[g])
  }

  /** One turn of the loop of `collect_epoch_nodes`: the next group is collated and added. */
  method CollateNext(grouped: OrdMap<seq<Tree>>, collated: OrdMap<OrdMap<seq<Tree>>>, i: nat) returns (next: OrdMap<OrdMap<seq<Tree>>>)
    requires Wf(grouped) && forall g | g in grouped.vals :: AllNodes(grouped.vals[g])
    requires i < |grouped.keys| && Collated(grouped, collated, i)
    ensures Collated(grouped, next, i + 1)
  {
    var logKey := grouped.keys[i];
    var collatedLogs := CollateGroup(grouped.vals[logKey]);
    assert logKey !in collated.keys by {
      forall a | 0 <= a < i ensures grouped.keys[a] != logKey { }
    }
    next := Put(collated, logKey, collatedLogs);
    assert next.keys == grouped.keys[..i + 1] by {
      assert grouped.keys[..i + 1] == grouped.keys[..i] + [logKey];
    }
    forall g | g in next.vals
      ensures g in grouped.vals && AllNodes(grouped.vals[g]) && next.vals[g] == Collate(grouped.vals[g])
    {
      if g != logKey {
        assert g in collated.vals;
      }
    }
  }

  /** A path key is collated in a group exactly when some log of the group has an epochs node at a
      path that joins to it. */
  lemma {:induction false} CollateDomain(logs: seq<Tree>, pathKey: string)
    requires AllNodes(logs) && forall j | 0 <= j < |logs| :: WfTree(logs[j])
    ensures pathKey in Collate(logs).vals <==>
              exists j, p, v | 0 <= j < |logs| && Yields(logs[j], p, v) :: Join("/", p) == pathKey
  {
    GroupDomain(Empty(), PathPairs(logs), pathKey);
    PathPairsKeys(logs, pathKey);
  }

  /** `pathKey` is a key of some pair of `PathPairs(logs)` exactly when some log yields a path
      joining to it. */
  lemma {:induction false} PathPairsKeys(logs: seq<Tree>, pathKey: string)
    requires AllNodes(logs) && forall j | 0 <= j < |logs| :: WfTree(logs[j])
    ensures pathKey in KeysOf(PathPairs(logs)) <==>
              exists j, p, v | 0 <= j < |logs| && Yields(logs[j], p, v) :: Join("/", p) == pathKey
    decreases |logs|
  {
    if logs != [] {
      var init := logs[..|logs| - 1];
      var last := logs[|logs| - 1];
      PathPairsKeys(init, pathKey);
      KeysOfAppend(PathPairs(init), LogPairs(last));
      LogPairsKeys(last, pathKey);
      YieldsSplit(logs, init, last, pathKey);
    }
  }

  /** Some log of `logs` yields a path joining to `pathKey` exactly when one of all but the last
      does, or the last does. */
  lemma YieldsSplit(logs: seq<Tree>, init: seq<Tree>, last: Tree, pathKey: string)
    requires logs != [] && init == logs[..|logs| - 1] && last == logs[|logs| - 1]
    ensures (exists j, p, v | 0 <= j < |logs| && Yields(logs[j], p, v) :: Join("/", p) == pathKey) <==>
            || (exists j, p, v | 0 <= j < |init| && Yields(init[j], p, v) :: Join("/", p) == pathKey)
            || (exists p, v | Yields(last, p, v) :: Join("/", p) == pathKey)
  {
    if exists j, p, v | 0 <= j < |logs| && Yields(logs[j], p, v) :: Join("/", p) == pathKey {
      var j, p, v :| 0 <= j < |logs| && Yields(logs[j], p, v) && Join("/", p) == pathKey;
      if j < |logs| - 1 {
        assert init[j] == logs[j];
      }
    }
    if exists j, p, v | 0 <= j < |init| && Yields(init[j], p, v) :: Join("/", p) == pathKey {
      var j, p, v :| 0 <= j < |init| && Yields(init[j], p, v) && Join("/", p) == pathKey;
      assert logs[j] == init[j];
    }
  }

  /** The key of a pair of one log is the joined path of one of its epochs nodes. */
  lemma LogPairsKeys(log: Tree, pathKey: string)
    requires log.Node? && WfTree(log)
    ensures pathKey in KeysOf(LogPairs(log)) <==> exists p, v | Yields(log, p, v) :: Join("/", p) == pathKey
  {
    var pairs := LogPairs(log);
    var found := EpochNodes(log);
    KeysOfIndex(pairs, pathKey);
    if pathKey in KeysOf(pairs) {
      var m :| 0 <= m < |pairs| && pairs[m].0 == pathKey;
      assert found[m] in found;
      EpochNodesExactly(log, found[m].0, found[m].1);
    }
    if exists p, v | Yields(log, p, v) :: Join("/", p) == pathKey {
      var p, v :| Yields(log, p, v) && Join("/", p) == pathKey;
      EpochNodesExactly(log, p, v);
      var m :| 0 <= m < |found| && found[m] == (p, v);
      assert pairs[m].0 == pathKey;
    }
  }

  lemma {:induction false} KeysOfAppend<V>(a: seq<(string, V)>, b: seq<(string, V)>)
    ensures KeysOf(a + b) == KeysOf(a) + KeysOf(b)
    decreases |a|
  {
    if a == [] {
      assert a + b == b;
    } else {
      assert (a + b)[1..] == a[1..] + b;
      KeysOfAppend(a[1..], b);
    }
  }

  lemma {:induction false} KeysOfIndex<V>(pairs: seq<(string, V)>, k: string)
    ensures k in KeysOf(pairs) <==> exists m | 0 <= m < |pairs| :: pairs[m].0 == k
    decreases |pairs|
  {
    if pairs != [] {
      KeysOfIndex(pairs[1..], k);
      if exists m | 0 <= m < |pairs| :: pairs[m].0 == k {
        var m :| 0 <= m < |pairs| && pairs[m].0 == k;
        if m > 0 {
          assert pairs[1..][m - 1].0 == k;
        }
      }
      if exists m | 0 <= m < |pairs[1..]| :: pairs[1..][m].0 == k {
        var m :| 0 <= m < |pairs[1..]| && pairs[1..][m].0 == k;
        assert pairs[m + 1].0 == k;
      }
    }
  }

  /** Within a path key, the epochs nodes keep the order of the logs and, within a log, the order
      in which `epoch_nodes` found them. */
  lemma CollateOrder(logs: seq<Tree>, log: Tree, pathKey: string)
    requires AllNodes(logs) && log.Node?
    ensures AllNodes(logs + [log])
    ensures ListAt(Collate(logs + [log]), pathKey) == ListAt(Collate(logs), pathKey) + Select(LogPairs(log), pathKey)
  {
    var all := logs + [log];
    assert all[..|all| - 1] == logs;
    assert PathPairs(all) == PathPairs(logs) + LogPairs(log);
    GroupEmptySelect(PathPairs(all), pathKey);
    GroupEmptySelect(PathPairs(logs), pathKey);
    SelectAppend(PathPairs(logs), LogPairs(log), pathKey);
  }

  lemma {:induction false} SelectAppend<V>(a: seq<(string, V)>, b: seq<(string, V)>, k: string)
    ensures Select(a + b, k) == Select(a, k) + Select(b, k)
    decreases |a|
  {
    if a == [] {
      assert a + b == b;
    } else {
      var here := if a[0].0 == k then [a[0].1] else [];
      assert (a + b)[0] == a[0];
      assert (a + b)[1..] == a[1..] + b;
      SelectAppend(a[1..], b, k);
      calc {
        Select(a + b, k);
        here + Select(a[1..] + b, k);
        here + (Select(a[1..], k) + Select(b, k));
        { assert here + (Select(a[1..], k) + Select(b, k)) == (here + Select(a[1..], k)) + Select(b, k); }
        (here + Select(a[1..], k)) + Select(b, k);
        Select(a, k) + Select(b, k);
      }
    }
  }
}
