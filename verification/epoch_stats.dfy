/** Per-epoch statistics over the epochs nodes of several runs (`FoldStats`, `EpochStats`,
    `get_epoch_stats`) and the search for the last epoch with validation results in the summary. */
module EpochStatistics {
  import opened Wrappers
  import opened OrderedMaps
  import opened Text
  import opened LogTrees

  /** A `runstats.Statistics` accumulator, kept as the sequence of values pushed into it. */
  type Statistics = seq<Tree>

  /** `FoldStats`: samples of one fold (train or val) of an epoch. */
  datatype FoldStats = FoldStats(top1: Statistics, top5: Statistics, duration: Statistics, stepTime: Statistics)

  /** `EpochStats`: samples of one epoch across runs. */
  datatype EpochStats = EpochStats(startLr: Statistics, endLr: Statistics, trainFold: FoldStats, valFold: FoldStats)

  /** Why collecting statistics fails: a `KeyError` for a missing key, a `TypeError` for indexing a
      scalar by a key, an `IndexError` when an epoch index skips ahead of the list, or the
      `IndexError` of `epoch_stats[-1]` on an empty list. */
  datatype StatsError = MissingKey(key: string) | NotAMapping | EpochIndexGap(epoch: nat) | NoEpochs

  function NewFold(): FoldStats
  {
    FoldStats([], [], [], [])
  }

  function NewEpoch(): EpochStats
  {
    EpochStats([], [], NewFold(), NewFold())
  }

  /** `key in node` for a mapping. */
  predicate Has(node: Tree, key: string)
  {
    node.Node? && key in node.dict.vals
  }

  /** `node[key]` */
  function Lookup(node: Tree, key: string): (r: Result<Tree, StatsError>)
    ensures r.Ok? <==> Has(node, key)
    ensures r.Ok? ==> r.value == node.dict.vals[key]
    ensures node.Leaf? ==> r == Err(NotAMapping)
    ensures node.Node? && !Has(node, key) ==> r == Err(MissingKey(key))
  {
    if node.Leaf? then Err(NotAMapping)
    else if key in node.dict.vals then Ok(node.dict.vals[key])
    else Err(MissingKey(key))
  }

  /** The value under `key` as a zero- or one-element list, for the pushes guarded by `in`. */
  function IfPresent(node: Tree, key: string): seq<Tree>
  {
    if Has(node, key) then [node.dict.vals[key]] else []
  }

  /** `FoldStats.update(fold_node)` */
  function UpdateFold(f: FoldStats, node: Tree): (r: Result<FoldStats, StatsError>)
    ensures r.Ok? <==> Has(node, "top1") && Has(node, "top5")
    ensures r.Ok? ==>
              && r.value.top1 == f.top1 + [node.dict.vals["top1"]]
              && r.value.top5 == f.top5 + [node.dict.vals["top5"]]
              && r.value.duration == f.duration + (if Has(node, "duration") then [node.dict.vals["duration"]] else [])
              && r.value.stepTime == f.stepTime + (if Has(node, "step_time") then [node.dict.vals["step_time"]] else [])
  {
    var top1 :- Lookup(node, "top1");
    var top5 :- Lookup(node, "top5");
    Ok(FoldStats(f.top1 + [top1], f.top5 + [top5],
                 f.duration + IfPresent(node, "duration"), f.stepTime + IfPresent(node, "step_time")))
  }

  /** The `train` part of `EpochStats.update`: the end learning rate and the train fold. */
  function UpdateTrain(e: EpochStats, node: Tree): (r: Result<EpochStats, StatsError>)
    ensures !Has(node, "train") ==> r == Ok(e)
    ensures Has(node, "train") ==>
              (r.Ok? <==> Has(node.dict.vals["train"], "end_lr") && WellFormedFold(node.dict.vals["train"]))
    ensures Has(node, "train") && r.Ok? ==>
              && r.value.startLr == e.startLr && r.value.valFold == e.valFold
              && r.value.endLr == e.endLr + [node.dict.vals["train"].dict.vals["end_lr"]]
              && Ok(r.value.trainFold) == UpdateFold(e.trainFold, node.dict.vals["train"])
  {
    if !Has(node, "train") then Ok(e)
    else
      var train := node.dict.vals["train"];
      var endLr :- Lookup(train, "end_lr");
      var fold :- UpdateFold(e.trainFold, train);
      Ok(e.(endLr := e.endLr + [endLr], trainFold := fold))
  }

  /** `EpochStats.update(epoch_node)` */
  function UpdateEpoch(e: EpochStats, node: Tree): (r: Result<EpochStats, StatsError>)
    ensures r.Ok? <==> WellFormedEpoch(node)
    ensures r.Ok? ==>
              && r.value.startLr == e.startLr + [node.dict.vals["start_lr"]]
              && (Has(node, "train") ==> r.value.endLr == e.endLr + [node.dict.vals["train"].dict.vals["end_lr"]])
              && (!Has(node, "train") ==> r.value.endLr == e.endLr && r.value.trainFold == e.trainFold)
              && (Has(node, "train") ==> Ok(r.value.trainFold) == UpdateFold(e.trainFold, node.dict.vals["train"]))
              && (!Has(node, "val") ==> r.value.valFold == e.valFold)
              && (Has(node, "val") ==> Ok(r.value.valFold) == UpdateFold(e.valFold, node.dict.vals["val"]))
  {
    var startLr :- Lookup(node, "start_lr");
    var e1 := e.(startLr := e.startLr + [startLr]);
    var e2 :- UpdateTrain(e1, node);
    if Has(node, "val") then
      var fold :- UpdateFold(e2.valFold, node.dict.vals["val"]);
      Ok(e2.(valFold := fold))
    else Ok(e2)
  }

  /** A fold node `FoldStats.update` accepts. */
  predicate WellFormedFold(node: Tree)
  {
    Has(node, "top1") && Has(node, "top5")
  }

  /** An epoch node `EpochStats.update` accepts: it has `start_lr`, a `train` part (if any) has
      `end_lr` and both folds have `top1` and `top5`. */
  predicate WellFormedEpoch(node: Tree)
  {
    && Has(node, "start_lr")
    && (Has(node, "train") ==> Has(node.dict.vals["train"], "end_lr") && WellFormedFold(node.dict.vals["train"]))
    && (Has(node, "val") ==> WellFormedFold(node.dict.vals["val"]))
  }

  /** The `(epoch key, epoch node)` items of one epochs node, in order. */
  function ItemsOf(node: Tree): (r: seq<(string, Tree)>)
    requires node.Node? && Wf(node.dict)
    ensures |r| == |node.dict.keys|
    ensures forall m | 0 <= m < |r| :: r[m] == (node.dict.keys[m], node.dict.vals[node.dict.keys[m]])
  {
    seq(|node.dict.keys|, m requires 0 <= m < |node.dict.keys| =>
      (node.dict.keys[m], node.dict.vals[node.dict.keys[m]]))
  }

  ghost predicate AllMappings(nodes: seq<Tree>)
  {
    forall j | 0 <= j < |nodes| :: nodes[j].Node? && Wf(nodes[j].dict)
  }

  /** The items of all epochs nodes, node after node. */
  function AllItems(nodes: seq<Tree>): seq<(string, Tree)>
    requires AllMappings(nodes)
  {
    if nodes == [] then [] else AllItems(nodes[..|nodes| - 1]) + ItemsOf(nodes[|nodes| - 1])
  }

  /** One iteration of the inner loop of `get_epoch_stats` on item `(key, node)`. */
  function Step(stats: seq<EpochStats>, key: string, node: Tree): (r: Result<seq<EpochStats>, StatsError>)
    ensures !IsNumeric(key) ==> r == Ok(stats)
    ensures IsNumeric(key) && ParseNat(key) > |stats| ==> r == Err(EpochIndexGap(ParseNat(key)))
    ensures IsNumeric(key) && ParseNat(key) <= |stats| ==> (r.Ok? <==> WellFormedEpoch(node))
    ensures IsNumeric(key) && r.Ok? ==>
              var n := ParseNat(key);
              && |r.value| == (if n == |stats| then |stats| + 1 else |stats|)
              && (forall j | 0 <= j < |stats| && j != n :: r.value[j] == stats[j])
              && Ok(r.value[n]) == UpdateEpoch(if n == |stats| then NewEpoch() else stats[n], node)
  {
    if !IsNumeric(key) then Ok(stats)
    else
      var n := ParseNat(key);
      if n > |stats| then Err(EpochIndexGap(n))
      else
        var base := if n == |stats| then stats + [NewEpoch()] else stats;
        var e :- UpdateEpoch(base[n], node);
        Ok(base[n := e])
  }

  /** The statistics after feeding `items` to the list `start`, or the first error raised. */
  function Feed(start: seq<EpochStats>, items: seq<(string, Tree)>): (r: Result<seq<EpochStats>, StatsError>)
    ensures r.Ok? ==> |start| <= |r.value| <= |start| + |items|
  {
    if items == [] then Ok(start)
    else
      var last := items[|items| - 1];
      var prev :- Feed(start, items[..|items| - 1]);
      Step(prev, last.0, last.1)
  }

  /** The statistics `get_epoch_stats` collects from `items`, starting from the empty list. */
  function Accumulate(items: seq<(string, Tree)>): (r: Result<seq<EpochStats>, StatsError>)
    ensures r.Ok? ==> |r.value| <= |items|
  {
    Feed([], items)
  }

  /** The inner loop of `get_epoch_stats`: feeds the items of one epochs node to `stats`. */
  method FeedEpochsNode(stats: seq<EpochStats>, epochsNode: Tree) returns (r: Result<seq<EpochStats>, StatsError>)
    requires epochsNode.Node? && Wf(epochsNode.dict)
    ensures r == Feed(stats, ItemsOf(epochsNode))
  {
    var current := stats;
    ghost var items := ItemsOf(epochsNode);
    assert items[..0] == [];
    for m := 0 to |epochsNode.dict.keys|
      invariant Feed(stats, items[..m]) == Ok(current)
    {
      var epochNum := epochsNode.dict.keys[m];
      var epochNode := epochsNode.dict.vals[epochNum];
      assert items[..m + 1][..m] == items[..m] && items[..m + 1][m] == (epochNum, epochNode);
      assert Feed(stats, items[..m + 1]) == Step(current, epochNum, epochNode);
      if !IsNumeric(epochNum) {
        continue;
      }
      var n := ParseNat(epochNum);
      if n >= |current| {
        current := current + [NewEpoch()];
      }
      if n >= |current| {
        r := Err(EpochIndexGap(n));
        FeedRaises(stats, items, m + 1);
        return;
      }
      var updated := UpdateEpoch(current[n], epochNode);
      if updated.Err? {
        r := Err(updated.error);
        FeedRaises(stats, items, m + 1);
        return;
      }
      current := current[n := updated.value];
    }
    assert items[..|epochsNode.dict.keys|] == items;
    r := Ok(current);
  }

  /** `get_epoch_stats(node_path, logs_epochs_nodes)` */
  method GetEpochStats(nodes: seq<Tree>) returns (r: Result<seq<EpochStats>, StatsError>)
    requires AllMappings(nodes)
    ensures r == Accumulate(AllItems(nodes))
  {
    var stats: seq<EpochStats> := [];
    for j := 0 to |nodes|
      invariant Feed([], AllItems(nodes[..j])) == Ok(stats)
    {
      var fed := FeedEpochsNode(stats, nodes[j]);
      assert nodes[..j + 1][..j] == nodes[..j];
      FeedAppend([], AllItems(nodes[..j]), ItemsOf(nodes[j]));
      if fed.Err? {
        r := fed;
        AllItemsAppend(nodes[..j + 1], nodes[j + 1..]);
        assert nodes[..j + 1] + nodes[j + 1..] == nodes;
        FeedAppend([], AllItems(nodes[..j + 1]), AllItems(nodes[j + 1..]));
        return;
      }
      stats := fed.value;
    }
    assert nodes[..|nodes|] == nodes;
    r := Ok(stats);
  }

  /** Feeding `a + b` feeds `a`, then, unless that raised, feeds `b` to the result. */
  lemma {:induction false} FeedAppend(start: seq<EpochStats>, a: seq<(string, Tree)>, b: seq<(string, Tree)>)
    ensures Feed(start, a + b) == if Feed(start, a).Err? then Feed(start, a) else Feed(Feed(start, a).value, b)
    decreases |b|
  {
    if b == [] {
      assert a + b == a;
    } else {
      assert (a + b)[..|a + b| - 1] == a + b[..|b| - 1];
      FeedAppend(start, a, b[..|b| - 1]);
    }
  }

  /** Once the first `m` items raise, feeding all of them raises the same error. */
  lemma FeedRaises(start: seq<EpochStats>, items: seq<(string, Tree)>, m: nat)
    requires m <= |items| && Feed(start, items[..m]).Err?
    ensures Feed(start, items) == Feed(start, items[..m])
  {
    assert items == items[..m] + items[m..];
    FeedAppend(start, items[..m], items[m..]);
  }

  lemma {:induction false} AllItemsAppend(a: seq<Tree>, b: seq<Tree>)
    requires AllMappings(a) && AllMappings(b)
    ensures AllMappings(a + b)
    ensures AllItems(a + b) == AllItems(a) + AllItems(b)
    decreases |b|
  {
    if b != [] {
      var b' := b[..|b| - 1];
      assert AllMappings(a + b');
      calc {
        AllItems(a + b);
        { assert (a + b)[..|a + b| - 1] == a + b'; }
        AllItems(a + b') + ItemsOf(b[|b| - 1]);
        { AllItemsAppend(a, b'); }
        AllItems(a) + AllItems(b') + ItemsOf(b[|b| - 1]);
      }
    } else {
      assert a + b == a;
    }
  }

  /** One more than the largest numeric epoch key among `items`, or 0 when there is none. */
  function Span(items: seq<(string, Tree)>): nat
  {
    if items == [] then 0
    else
      var last := items[|items| - 1];
      var here := if IsNumeric(last.0) then ParseNat(last.0) + 1 else 0;
      var before := Span(items[..|items| - 1]);
      if here > before then here else before
  }

  /** The numeric epoch keys never skip ahead: each is at most one past the largest seen before it. */
  predicate Gapless(items: seq<(string, Tree)>)
  {
    forall i | 0 <= i < |items| && IsNumeric(items[i].0) :: ParseNat(items[i].0) <= Span(items[..i])
  }

  /** Every numeric item holds an epoch node `EpochStats.update` accepts. */
  predicate ItemsWellFormed(items: seq<(string, Tree)>)
  {
    forall i | 0 <= i < |items| && IsNumeric(items[i].0) :: WellFormedEpoch(items[i].1)
  }

  /** The items whose key is numeric, in order: the ones `get_epoch_stats` does not skip. */
  function NumericItems(items: seq<(string, Tree)>): (r: seq<(string, Tree)>)
    ensures |r| <= |items|
    ensures forall x :: x in r <==> x in items && IsNumeric(x.0)
  {
    if items == [] then []
    else
      var last := items[|items| - 1];
      NumericItems(items[..|items| - 1]) + (if IsNumeric(last.0) then [last] else [])
  }

  /** The epoch nodes of the numeric items with index `n`, in order. */
  function NodesAt(items: seq<(string, Tree)>, n: nat): seq<Tree>
  {
    if items == [] then []
    else
      var last := items[|items| - 1];
      NodesAt(items[..|items| - 1], n) + (if IsNumeric(last.0) && ParseNat(last.0) == n then [last.1] else [])
  }

  /** A fresh `EpochStats` updated with `nodes` in order. */
  function Replay(nodes: seq<Tree>): Result<EpochStats, StatsError>
  {
    if nodes == [] then Ok(NewEpoch())
    else
      var prev :- Replay(nodes[..|nodes| - 1]);
      UpdateEpoch(prev, nodes[|nodes| - 1])
  }

  /** Successful collection yields exactly `Span(items)` epochs (one more than the largest epoch
      index) and each epoch's statistics are those of its own epoch nodes, replayed in input order. */
  lemma {:induction false} AccumulateContents(items: seq<(string, Tree)>)
    requires Accumulate(items).Ok?
    ensures |Accumulate(items).value| == Span(items)
    ensures forall n | 0 <= n < |Accumulate(items).value| :: Replay(NodesAt(items, n)) == Ok(Accumulate(items).value[n])
    ensures forall n | n >= Span(items) :: NodesAt(items, n) == []
    decreases |items|
  {
    if items != [] {
      var init := items[..|items| - 1];
      var last := items[|items| - 1];
      AccumulateErrorPrefix(items);
      AccumulateContents(init);
      var prev := Accumulate(init).value;
      var stats := Accumulate(items).value;
      assert Accumulate(items) == Step(prev, last.0, last.1);
      if IsNumeric(last.0) {
        var k := ParseNat(last.0);
        var base := if k == |prev| then prev + [NewEpoch()] else prev;
        var e := UpdateEpoch(base[k], last.1);
        assert e.Ok? && stats == base[k := e.value];
        forall n | 0 <= n < |stats| ensures Replay(NodesAt(items, n)) == Ok(stats[n]) {
          if n == k {
            var before := NodesAt(init, k);
            assert NodesAt(items, k) == before + [last.1];
            assert (before + [last.1])[..|before|] == before;
            assert Replay(before) == Ok(base[k]) by {
              if k == |prev| {
                assert before == [];
              }
            }
            ReplaySnoc(before, last.1);
            assert Replay(NodesAt(items, k)) == UpdateEpoch(base[k], last.1);

          } else {
            assert NodesAt(items, n) == NodesAt(init, n) + [] == NodesAt(init, n);
            assert n < |prev| && stats[n] == prev[n];
          }
        }
        forall n | n >= Span(items) ensures NodesAt(items, n) == [] {
          assert NodesAt(items, n) == NodesAt(init, n) + [];
        }
      } else {
        forall n ensures NodesAt(items, n) == NodesAt(init, n) {
          assert NodesAt(items, n) == NodesAt(init, n) + [];
        }
      }
    }
  }

  lemma ReplaySnoc(nodes: seq<Tree>, node: Tree)
    ensures Replay(nodes + [node]) == if Replay(nodes).Err? then Replay(nodes) else UpdateEpoch(Replay(nodes).value, node)
  {
    assert (nodes + [node])[..|nodes|] == nodes;
  }

  /** A call that succeeds succeeds on every prefix of its items. */
  lemma AccumulateErrorPrefix(items: seq<(string, Tree)>)
    requires items != [] && Accumulate(items).Ok?
    ensures Accumulate(items[..|items| - 1]).Ok?
  {
  }

  /** Collection succeeds exactly when the epoch keys arrive without gaps and every epoch node is
      well formed; a gap makes it fail with `EpochIndexGap`. */
  lemma {:induction false} AccumulateSucceeds(items: seq<(string, Tree)>)
    ensures Accumulate(items).Ok? <==> Gapless(items) && ItemsWellFormed(items)
    decreases |items|
  {
    if items != [] {
      var init := items[..|items| - 1];
      var last := items[|items| - 1];
      AccumulateSucceeds(init);
      GaplessSnoc(items);
      if Accumulate(init).Ok? {
        AccumulateContents(init);
      }
    }
  }

  /** `Gapless` and `ItemsWellFormed` of `items` split into the prefix and the last item. */
  lemma GaplessSnoc(items: seq<(string, Tree)>)
    requires items != []
    ensures var init := items[..|items| - 1];
            var last := items[|items| - 1];
            && (Gapless(items) <==> Gapless(init) && (IsNumeric(last.0) ==> ParseNat(last.0) <= Span(init)))
            && (ItemsWellFormed(items) <==> ItemsWellFormed(init) && (IsNumeric(last.0) ==> WellFormedEpoch(last.1)))
  {
    var init := items[..|items| - 1];
    forall i | 0 <= i < |init| ensures items[..i] == init[..i] && items[i] == init[i] { }
  }

  /** With gapless keys, no epoch is created without an item: there are at most as many epochs as
      numeric items. */
  lemma {:induction false} SpanAtMostNumeric(items: seq<(string, Tree)>)
    requires Gapless(items)
    ensures Span(items) <= |NumericItems(items)|
    decreases |items|
  {
    if items != [] {
      GaplessSnoc(items);
      SpanAtMostNumeric(items[..|items| - 1]);
    }
  }

  /** Items with non-numeric keys are skipped: dropping them changes nothing. */
  lemma {:induction false} AccumulateSkipsNonNumeric(items: seq<(string, Tree)>)
    ensures Accumulate(NumericItems(items)) == Accumulate(items)
    decreases |items|
  {
    if items != [] {
      var init := items[..|items| - 1];
      var last := items[|items| - 1];
      AccumulateSkipsNonNumeric(init);
      if IsNumeric(last.0) {
        var ni := NumericItems(init);
        assert NumericItems(items) == ni + [last];
        calc {
          Accumulate(ni + [last]);
          { FeedAppend([], ni, [last]); }
          if Accumulate(ni).Err? then Accumulate(ni) else Feed(Accumulate(ni).value, [last]);
          if Accumulate(init).Err? then Accumulate(init) else Feed(Accumulate(init).value, [last]);
          { FeedAppend([], init, [last]); }
          Accumulate(init + [last]);
          { assert items == init + [last]; }
          Accumulate(items);
        }
      } else {
        assert NumericItems(items) == NumericItems(init) + [] == NumericItems(init);
        assert Accumulate(items) == Accumulate(init);
      }
    }
  }

  /** What the summary prints for the last epoch. */
  datatype LastLine = NotShown | LastValid(epoch: nat) | NoValidEpoch

  const Milestones: seq<nat> := [0, 5, 30, 100, 200, 600, 1500]

  /** The backward search of `get_summary_text` for the last epoch with validation top-1 samples. */
  method LastValidEpoch(stats: seq<EpochStats>) returns (last: int)
    ensures -1 <= last < |stats|
    ensures last >= 0 ==> |stats[last].valFold.top1| > 0
    ensures forall j | last < j < |stats| :: |stats[j].valFold.top1| == 0
  {
    last := |stats| - 1;
    while last >= 0 && |stats[last].valFold.top1| == 0
      invariant -1 <= last < |stats|
      invariant forall j | last < j < |stats| :: |stats[j].valFold.top1| == 0
    {
      last := last - 1;
    }
  }

  /** The `[Last]` line of `get_summary_text`: skipped when the epoch count is a milestone;
      otherwise the last epoch with validation results, or the note that there is none. */
  method SummaryLastLine(stats: seq<EpochStats>) returns (line: LastLine)
    ensures |stats| in Milestones <==> line == NotShown
    ensures line.LastValid? ==> line.epoch < |stats| && |stats[line.epoch].valFold.top1| > 0
                                && forall j | line.epoch < j < |stats| :: |stats[j].valFold.top1| == 0
    ensures line == NoValidEpoch <==>
              |stats| !in Milestones && forall j | 0 <= j < |stats| :: |stats[j].valFold.top1| == 0
  {
    if |stats| in Milestones {
      return NotShown;
    }
    var last := LastValidEpoch(stats);
    if last >= 0 {
      line := LastValid(last);
    } else {
      line := NoValidEpoch;
    }
  }

  /** A `val top1 @ m epochs` line: the milestone `m` it names and the epoch whose samples it shows. */
  datatype MilestoneLine = MilestoneLine(milestone: nat, epoch: nat)

  /** The index `epoch_stats[milestone - 1]` reads once the guard has let `milestone` through:
      Python reads index `-1`, the last epoch, for milestone 0. */
  function PrevIndex(m: nat, n: nat): (e: nat)
    requires 0 < n && m <= n
    ensures e < n
    ensures m > 0 ==> e == m - 1
  {
    if m == 0 then n - 1 else m - 1
  }

  /** The milestone lines printed for `stats`: a line for `l.milestone` is printed iff the guard
      `len(epoch_stats) >= milestone` holds and the epoch it reads has validation top-1 samples.
      With `corrected`, milestone 0 is skipped. */
  ghost predicate Shown(stats: seq<EpochStats>, l: MilestoneLine, corrected: bool)
  {
    && (corrected ==> l.milestone > 0)
    && 0 < |stats| && l.milestone <= |stats|
    && l.epoch == PrevIndex(l.milestone, |stats|)
    && |stats[l.epoch].valFold.top1| > 0
  }

  /** One turn of the milestone loop of `get_summary_text`. As written, milestone 0 passes the
      guard for every list and reads `epoch_stats[-1]`, which raises on an empty list and shows
      the last epoch otherwise; `corrected` skips milestone 0. */
  function MilestoneAt(stats: seq<EpochStats>, m: nat, corrected: bool): (r: Result<seq<MilestoneLine>, StatsError>)
    ensures r.Err? <==> !corrected && m == 0 && |stats| == 0
    ensures r.Err? ==> r == Err(NoEpochs)
    ensures r.Ok? ==> forall l :: l in r.value <==> l.milestone == m && Shown(stats, l, corrected)
  {
    if corrected && m == 0 then Ok([])
    else if |stats| < m then Ok([])
    else if |stats| == 0 then Err(NoEpochs)
    else
      var e := PrevIndex(m, |stats|);
      if |stats[e].valFold.top1| > 0 then Ok([MilestoneLine(m, e)]) else Ok([])
  }

  /** The milestone loop over `ms`, stopping at the first error. */
  function MilestoneLines(stats: seq<EpochStats>, ms: seq<nat>, corrected: bool): (r: Result<seq<MilestoneLine>, StatsError>)
    ensures r.Err? <==> !corrected && 0 in ms && |stats| == 0
    ensures r.Err? ==> r == Err(NoEpochs)
    ensures r.Ok? ==> forall l :: l in r.value <==> l.milestone in ms && Shown(stats, l, corrected)
    decreases |ms|
  {
    if ms == [] then Ok([])
    else
      var init := ms[..|ms| - 1];
      assert ms == init + [ms[|ms| - 1]];
      var before :- MilestoneLines(stats, init, corrected);
      var here :- MilestoneAt(stats, ms[|ms| - 1], corrected);
      Ok(before + here)
  }

  /** The milestone loop of `get_summary_text` as written. On an empty list it raises `IndexError`
      at milestone 0; otherwise milestone 0 shows the last epoch's validation top-1 labelled
      `@ 0 epochs` whenever that epoch has samples. */
  method MilestonesAsWritten(stats: seq<EpochStats>) returns (r: Result<seq<MilestoneLine>, StatsError>)
    ensures r == MilestoneLines(stats, Milestones, false)
    ensures r.Err? <==> |stats| == 0
    ensures r.Ok? ==> (MilestoneLine(0, |stats| - 1) in r.value <==> |stats[|stats| - 1].valFold.top1| > 0)
  {
    var lines: seq<MilestoneLine> := [];
    for i := 0 to |Milestones|
      invariant MilestoneLines(stats, Milestones[..i], false) == Ok(lines)
    {
      assert Milestones[..i + 1][..i] == Milestones[..i];
      var here := MilestoneAt(stats, Milestones[i], false);
      if here.Err? {
        assert 0 in Milestones;
        return Err(NoEpochs);
      }
      lines := lines + here.value;
    }
    assert Milestones[..|Milestones|] == Milestones;
    r := Ok(lines);
    if |stats| > 0 {
      assert 0 in Milestones;
    }
  }

  /** The milestone loop with milestone 0 skipped: it never fails, and every line names a milestone
      the list has reached together with that milestone's own epoch. */
  method MilestonesCorrected(stats: seq<EpochStats>) returns (lines: seq<MilestoneLine>)
    ensures MilestoneLines(stats, Milestones, true) == Ok(lines)
    ensures forall l :: l in lines <==> l.milestone in Milestones && Shown(stats, l, true)
    ensures forall l | l in lines :: 0 < l.milestone <= |stats| && l.epoch == l.milestone - 1
  {
    lines := [];
    for i := 0 to |Milestones|
      invariant MilestoneLines(stats, Milestones[..i], true) == Ok(lines)
    {
      assert Milestones[..i + 1][..i] == Milestones[..i];
      var here := MilestoneAt(stats, Milestones[i], true);
      lines := lines + here.value;
    }
    assert Milestones[..|Milestones|] == Milestones;
  }
}
