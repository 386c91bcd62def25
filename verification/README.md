# archai search and log bookkeeping in Dafny

This project models three sequential parts of the archai repository and proves properties about them.

- **The evolutionary architecture search** (`archai/nlp/nas/evolution.py`, class `Evolution`).
  - A gene is a list of choices, one per position of the search space.
  - Each gene passes a two-stage constraint gate: analytical parameter bounds first, then an optional latency bound.
  - A `Counter` records how often each gene has been in a population. The seen-before test reads it.
  - Parents are drawn from the current Pareto frontier with inverse-frequency weights.
  - Children come from mutation and crossover. A child is kept only if it passes the gate and has never been counted.
  - Every visited gene is appended to parallel history lists of measurements. The frontier is recomputed from those lists after flipping the decoder-parameter axis.
  - The brute-force ablation (`semi_brute_force`) measures a pool of genes batch by batch.

  `Evolution` is a Dafny class whose fields are the counter (a multiset of genes), `all_population`, the four history lists and the frontier. Its methods carry the source's loops with their invariants, and each is proved against a specification function in `GeneticOps` or `Weights`.
- **The log-analysis helpers** (`archai/common/analysis_utils.py`):
  - `epoch_nodes`, the recursive discovery of `epochs` nodes in nested ordered dictionaries (`LogTrees`);
  - `remove_seed_part` and `get_valid_filename` (`RunKeys`);
  - `group_multi_runs` and `collect_epoch_nodes` (`RunGroups`, over the ordered dictionaries of `OrderedMaps`);
  - `FoldStats.update`, `EpochStats.update`, `get_epoch_stats` and the milestone lines and last-valid-epoch search of `get_summary_text` (`EpochStatistics`).

  The loops become methods proved against recursive specification functions.
- **`OrderedDictLogger`** (`archai/common/ordered_dict_logger.py`): a tree of nested `OrderedDict`s written through a stack of pushed paths.
  - `DictLogger` models it as a class whose fields are `paths`, `stack` and `call_count`, plus an arena `nodes` of dictionaries indexed by identity.
  - A stack slot therefore keeps referring to the same dictionary, as a Python reference does.
  - Each method is proved equal to a state-transition function. `LoggerProperties` proves what those functions promise:
    - `current_node` fills pending slots and is stable;
    - `update_key` honours the override guard;
    - in `update`, later pairs win;
    - messages land under the counter;
    - `popd` undoes `pushd`.

Random draws (`np.random.uniform`, `random.choices`, `random.sample`, `np.random.choice`) are explicit inputs. So are the model evaluator (the analytical parameter formula, measured parameters, latency and memory) and `find_pareto_points`, whose source is not part of this model.

The source is followed where its docstrings and names would suggest otherwise:
- With mutation probability 1 a position is redrawn uniformly and may get its old value back.
- The initial population is not checked against the counter, so it may repeat genes.
- Children of one generation may repeat each other, because the counter is updated only after the whole generation is built.
- `node or self.current_node` in `update_key` treats an empty root dictionary as missing. `LoggerProperties.EmptyRootMessage` and `LoggerProperties.GuardedRootMessage` show both outcomes of this quirk.

## Model

| member | source | states |
|---|---|---|
| OrderedMaps.Empty | archai/common/analysis_utils.py:68 | a new dictionary has no keys and is well formed |
| OrderedMaps.Put | archai/common/analysis_utils.py:74 | assignment keeps the keys distinct and equal to the dictionary's domain |
| OrderedMaps.AppendAt | archai/common/analysis_utils.py:71-74 | append-or-create keeps the dictionary well formed |
| OrderedMaps.Group | archai/common/analysis_utils.py:69-74 | appending every pair under its key keeps the dictionary well formed |
| OrderedMaps.GroupConcat | archai/common/analysis_utils.py:69-74 | grouping `a + b` is grouping `a`, then `b` |
| OrderedMaps.GroupStep | archai/common/analysis_utils.py:69-74 | one more loop turn appends that pair's value under its key |
| OrderedMaps.ListAtAppendAt | archai/common/analysis_utils.py:71-74 | appending under `k` adds the value at the end of `k`'s list and changes no other list |
| OrderedMaps.GroupSelect | archai/common/analysis_utils.py:69-74 | after grouping, each key's list is its old list followed by the values paired with it, in input order |
| OrderedMaps.GroupEmptySelect | archai/common/analysis_utils.py:68-74 | grouped from an empty dictionary, each key's list is exactly the values paired with it |
| OrderedMaps.GroupDomain | archai/common/analysis_utils.py:69-74 | a key has a list exactly when it was there already or some pair names it |
| OrderedMaps.GroupKeys | archai/common/analysis_utils.py:69-74 | groups appear in order of the first pair naming them |
| OrderedMaps.GroupTotal | archai/common/analysis_utils.py:69-74 | the list lengths grow by exactly the number of pairs |
| OrderedMaps.AppendAtTotal | archai/common/analysis_utils.py:71-74 | one append grows the list lengths by exactly one |
| Text.Join | archai/common/ordered_dict_logger.py:122 | joining no parts gives the empty string; otherwise the first part starts the result |
| Text.Concat | archai/common/ordered_dict_logger.py:122 | `itertools.chain.from_iterable`: every element of every list is in the result, and every element of the result comes from one of the lists |
| Text.ParseNat | archai/common/analysis_utils.py:141 | `int(s)` of `k` digits is below `10^k` |
| Text.NatToString | archai/common/ordered_dict_logger.py:190 | `str(n)` is all digits and has no leading zero unless `n` is 0 |
| Text.JoinAppend | archai/common/ordered_dict_logger.py:122 | joining two non-empty lists puts exactly one separator between their joins |
| Text.ConcatAppend | archai/common/ordered_dict_logger.py:122 | flattening distributes over list concatenation |
| Text.ParseNatToString | archai/common/analysis_utils.py:139-141 | `str(n)` is numeric and `int(str(n)) == n` |
| Text.NatToStringInjective | archai/common/ordered_dict_logger.py:216-229 | different counter values give different message keys |
| LogTrees.YieldsStep | archai/common/analysis_utils.py:33-37 | a path through key `k` yields what the rest of the path yields below `k`, unless `k` holds an epochs node |
| LogTrees.ThroughEpochs | archai/common/analysis_utils.py:33-34 | a matched `epochs` key reports exactly its node, with the parent's path, and nothing below it |
| LogTrees.ThroughChild | archai/common/analysis_utils.py:35-37 | a nested dictionary under `k` reports, below `path + [k]`, exactly what is found through `k` |
| LogTrees.ThroughLeaf | archai/common/analysis_utils.py:35 | nothing is found through a scalar |
| LogTrees.EpochNodesFrom | archai/common/analysis_utils.py:32-37 | every yielded node is an epochs node, at a path extending the current one |
| LogTrees.EpochNodes | archai/common/analysis_utils.py:30-37 | every yielded node is an epochs node |
| LogTrees.EpochNodesFromExactly | archai/common/analysis_utils.py:32-37 | the walk from key `i` yields exactly the epochs nodes reachable through keys `i` on, in both directions |
| LogTrees.EpochNodesExactly | archai/common/analysis_utils.py:30-37 | `epoch_nodes` yields `(p, v)` iff `v` is a non-empty dictionary with key `'0'`, stored under `epochs` at `p`, with no epochs node on the way |
| RunKeys.DigitRun | archai/common/analysis_utils.py:64 | the greedy `[0-9]*`: every character in the run is a digit, and the run is maximal |
| RunKeys.SeedMatchEnd | archai/common/analysis_utils.py:64 | a match of the seed pattern is empty or at least five characters long, and stays inside the key |
| RunKeys.RemoveSeedFrom | archai/common/analysis_utils.py:65 | substitution with `''` only drops characters: every character left comes from the scanned suffix |
| RunKeys.RemoveSeedPart | archai/common/analysis_utils.py:61-65 | the seed-less key is no longer than the key, and every character in it comes from the key |
| RunKeys.RemoveSeedFromShorter | archai/common/analysis_utils.py:64-65 | removal never lengthens the key, and each match removes at least five characters |
| RunKeys.RemoveSeedFromPrefix | archai/common/analysis_utils.py:65 | text before the first `seed` is kept as it is |
| RunKeys.RemoveSeedPartNoSeed | archai/common/analysis_utils.py:61-65 | a key without `seed` is returned unchanged |
| RunKeys.StripLeft | archai/common/analysis_utils.py:150 | drops exactly the leading whitespace |
| RunKeys.StripRight | archai/common/analysis_utils.py:150 | drops exactly the trailing whitespace |
| RunKeys.Strip | archai/common/analysis_utils.py:150 | `strip()` never lengthens the text, and neither end of a non-empty result is whitespace |
| RunKeys.StripShape | archai/common/analysis_utils.py:150 | `strip()` is a slice of the text, and only whitespace is cut off either end |
| RunKeys.ReplaceChar | archai/common/analysis_utils.py:150 | `replace(' ', '-')` changes exactly the spaces, one for one |
| RunKeys.Sanitize | archai/common/analysis_utils.py:151 | every character outside `[-\w.]` becomes `-`, and the others are kept |
| RunKeys.GetValidFilename | archai/common/analysis_utils.py:149-151 | the file name has the stripped text's length and holds only word characters, `-` and `.` |
| RunKeys.GetValidFilenameChars | archai/common/analysis_utils.py:149-151 | the file name has the stripped text's length, and each character is kept or becomes `-`; all are word characters, `-` or `.`, and none is whitespace |
| RunKeys.GetValidFilenameIdempotent | archai/common/analysis_utils.py:149-151 | a valid file name maps to itself |
| RunGroups.SeedlessPairs | archai/common/analysis_utils.py:69-70 | one `(remove_seed_part(key), log)` pair per log, in iteration order |
| RunGroups.GroupMultiRuns | archai/common/analysis_utils.py:67-75 | the loop builds the grouping of the seed-less pairs; groups come in first-seen order, and group sizes sum to the number of logs |
| RunGroups.GroupedPairs | archai/common/analysis_utils.py:67-75 | first-seen group order, and the group sizes add up to the number of inputs |
| RunGroups.GroupMultiRunsLists | archai/common/analysis_utils.py:69-75 | group `g` holds exactly the logs whose seed-less key is `g`, in input order |
| RunGroups.GroupMultiRunsPlacement | archai/common/analysis_utils.py:69-75 | each log is in the list that the grouping holds under its seed-less key |
| RunGroups.LogPairs | archai/common/analysis_utils.py:85-87 | one `('/'.join(path), node)` pair per yielded epochs node, in discovery order |
| RunGroups.Collate | archai/common/analysis_utils.py:83-91 | a group's collation is a well-formed dictionary |
| RunGroups.AppendLogNodes | archai/common/analysis_utils.py:85-91 | the inner loop appends one log's epochs nodes under their joined paths |
| RunGroups.CollateGroup | archai/common/analysis_utils.py:83-91 | the loop over a group's logs computes its collation |
| RunGroups.CollectEpochNodes | archai/common/analysis_utils.py:77-93 | same top-level keys in the same order, each mapped to its group's collation |
| RunGroups.CollateNext | archai/common/analysis_utils.py:82-92 | one outer-loop turn adds the next group, collated, after those before it |
| RunGroups.CollateDomain | archai/common/analysis_utils.py:83-91 | an inner key exists iff some log of the group yields an epochs node whose path joins to it |
| RunGroups.PathPairsKeys | archai/common/analysis_utils.py:84-87 | the path keys of a group are exactly the joined paths yielded by its logs |
| RunGroups.LogPairsKeys | archai/common/analysis_utils.py:85-87 | the path keys of one log are exactly its yielded joined paths |
| RunGroups.CollateOrder | archai/common/analysis_utils.py:84-91 | one more log appends its nodes after the earlier logs' nodes under each path key |
| EpochStatistics.Lookup | archai/common/analysis_utils.py:119-120 | `node[key]` succeeds exactly for a present key; otherwise `KeyError`, or `TypeError` on a scalar |
| EpochStatistics.UpdateFold | archai/common/analysis_utils.py:117-124 | succeeds iff `top1` and `top5` exist; appends the node's `top1` to `top1` and its `top5` to `top5`, and its `duration`/`step_time` only when present, keeping earlier samples |
| EpochStatistics.UpdateTrain | archai/common/analysis_utils.py:104-106 | without `train` nothing changes; with it, succeeds iff `train` has `end_lr`, `top1` and `top5`, appends `end_lr` and updates the train fold with the `train` node, leaving `start_lr` and the val fold alone |
| EpochStatistics.UpdateEpoch | archai/common/analysis_utils.py:101-108 | succeeds iff the node is well formed; appends `start_lr`; with `train` appends its `end_lr` and updates the train fold with the `train` node, with `val` updates the val fold with the `val` node; an absent part leaves its lists alone |
| EpochStatistics.ItemsOf | archai/common/analysis_utils.py:138 | the items of an epochs node, in key order |
| EpochStatistics.Step | archai/common/analysis_utils.py:139-145 | a non-numeric key changes nothing; an index past the end raises; the index equal to the length appends a fresh epoch, a smaller one updates that epoch in place; other entries are kept |
| EpochStatistics.Feed | archai/common/analysis_utils.py:137-145 | feeding items grows the list by at most one entry per item |
| EpochStatistics.Accumulate | archai/common/analysis_utils.py:134-147 | there are never more epoch entries than items |
| EpochStatistics.FeedEpochsNode | archai/common/analysis_utils.py:138-145 | the inner loop feeds one epochs node, stopping at the first error |
| EpochStatistics.GetEpochStats | archai/common/analysis_utils.py:134-147 | the loops compute the accumulation over all items of all nodes |
| EpochStatistics.FeedAppend | archai/common/analysis_utils.py:137-145 | feeding `a + b` feeds `a`, then `b` unless `a` raised |
| EpochStatistics.FeedRaises | archai/common/analysis_utils.py:137-145 | an error ends the whole collection with that error |
| EpochStatistics.AllItemsAppend | archai/common/analysis_utils.py:137-138 | items of consecutive node lists concatenate |
| EpochStatistics.NumericItems | archai/common/analysis_utils.py:139-140 | the items kept are exactly those with a numeric key, and there are no more of them than items |
| EpochStatistics.AccumulateContents | archai/common/analysis_utils.py:137-147 | on success there are `1 + max epoch index` entries, and entry `n` is its own epoch nodes replayed in input order |
| EpochStatistics.AccumulateSucceeds | archai/common/analysis_utils.py:141-145 | collection succeeds iff epoch keys arrive without gaps and every epoch node is well formed |
| EpochStatistics.SpanAtMostNumeric | archai/common/analysis_utils.py:142-143 | with gapless keys, at most one entry is appended per numeric item |
| EpochStatistics.AccumulateSkipsNonNumeric | archai/common/analysis_utils.py:139-140 | non-numeric keys are skipped: dropping them changes nothing |
| EpochStatistics.LastValidEpoch | archai/common/analysis_utils.py:183-185 | ends at the largest index with validation top-1 samples, or at -1 when there is none |
| EpochStatistics.SummaryLastLine | archai/common/analysis_utils.py:181-189 | no `[Last]` line iff the epoch count is a milestone; otherwise the last valid epoch, or the no-valid-epoch note exactly when no epoch has samples |
| EpochStatistics.PrevIndex | archai/common/analysis_utils.py:178 | `epoch_stats[milestone-1]` is in range; for milestone 0 it is the last epoch, Python's index `-1` |
| EpochStatistics.MilestoneAt | archai/common/analysis_utils.py:177-179 | as written, milestone 0 fails exactly on an empty list; otherwise a line appears iff the guard passes and the epoch read has validation top-1 samples |
| EpochStatistics.MilestoneLines | archai/common/analysis_utils.py:176-179 | the loop fails iff milestone 0 is listed, uncorrected, on an empty list; otherwise it shows exactly the lines of the listed milestones that pass |
| EpochStatistics.MilestonesAsWritten | archai/common/analysis_utils.py:176-179 | as written, the milestone loop raises iff there are no epochs, and otherwise prints a `@ 0 epochs` line for the last epoch whenever it has validation samples |
| EpochStatistics.MilestonesCorrected | archai/common/analysis_utils.py:176-179 | with milestone 0 skipped, the loop never fails and every line names a reached milestone with that milestone's own epoch |
| DictLogger.Grow | archai/common/ordered_dict_logger.py:106-107 | creating a missing child dictionary keeps the arena consistent and only adds |
| DictLogger.Walk | archai/common/ordered_dict_logger.py:105-110 | walking a path only adds dictionaries and keys; it fails only on a scalar, and ends at a dictionary |
| DictLogger.Initial | archai/common/ordered_dict_logger.py:40-44 | the initial state is valid |
| DictLogger.FillFrom | archai/common/ordered_dict_logger.py:101-114 | filling keeps paths, counter and filled slots, only adds to the tree, and fails only on a scalar |
| DictLogger.Fill | archai/common/ordered_dict_logger.py:99-116 | `current_node` keeps the root slot and the paths, and only adds to the tree |
| DictLogger.ContainsSpec | archai/common/ordered_dict_logger.py:76 | `key in logger` keeps the logger valid and only adds to the tree |
| DictLogger.LenSpec | archai/common/ordered_dict_logger.py:81 | `len(logger)` keeps the logger valid, only adds to the tree, fails only on a scalar, and keeps paths, counter and root slot |
| DictLogger.TargetSpec | archai/common/ordered_dict_logger.py:183 | `node or self.current_node` yields a dictionary of the arena |
| DictLogger.WriteSpec | archai/common/ordered_dict_logger.py:184-190 | the path walk and the assignment keep the stack, the paths and the counter; every other key of every existing dictionary keeps its value, and a walk that fails on a scalar only adds |
| DictLogger.UpdateKeySpec | archai/common/ordered_dict_logger.py:180-190 | `update_key` keeps paths, counter and root slot |
| DictLogger.UpdateSpec | archai/common/ordered_dict_logger.py:201-202 | `update` keeps paths, counter and root slot |
| DictLogger.LogSpec | archai/common/ordered_dict_logger.py:216-229 | `log` advances the counter by exactly one and keeps paths and root slot |
| DictLogger.LogCountedSpec | archai/common/ordered_dict_logger.py:218-229 | the rest of `log` keeps the counter, paths and root slot |
| DictLogger.PathOf | archai/common/ordered_dict_logger.py:122 | with only the root entry the path is the empty string |
| DictLogger.Strs | archai/common/ordered_dict_logger.py:289 | one `str(k)` per key, in order |
| DictLogger.PushSpec | archai/common/ordered_dict_logger.py:289-290 | `pushd` keeps `paths` and `stack` parallel |
| DictLogger.PopSpec | archai/common/ordered_dict_logger.py:297-302 | `popd` keeps `paths` and `stack` parallel and non-empty |
| DictLogger.OrderedDictLogger.constructor | archai/common/ordered_dict_logger.py:40-44 | `paths == [[""]]`, one empty root, counter 0 |
| DictLogger.OrderedDictLogger.RootNode | archai/common/ordered_dict_logger.py:87 | the root is the dictionary of the first slot |
| DictLogger.OrderedDictLogger.CurrentPath | archai/common/ordered_dict_logger.py:122 | the `/`-join of all keys pushed after the root entry; empty at the root |
| DictLogger.OrderedDictLogger.Descend | archai/common/ordered_dict_logger.py:105-110 | the key loop performs the walk, creating missing dictionaries |
| DictLogger.OrderedDictLogger.CurrentNode | archai/common/ordered_dict_logger.py:99-116 | the slot loop performs `current_node`'s state change and result |
| DictLogger.OrderedDictLogger.Contains | archai/common/ordered_dict_logger.py:76 | state and result of `key in logger` |
| DictLogger.OrderedDictLogger.Len | archai/common/ordered_dict_logger.py:81 | state and result of `len(logger)` |
| DictLogger.OrderedDictLogger.UpdateKey | archai/common/ordered_dict_logger.py:180-190 | state and result of `update_key` |
| DictLogger.OrderedDictLogger.WriteAt | archai/common/ordered_dict_logger.py:186-190 | state and result of the path walk and the assignment |
| DictLogger.OrderedDictLogger.Update | archai/common/ordered_dict_logger.py:201-202 | the pair loop performs `update` |
| DictLogger.OrderedDictLogger.Log | archai/common/ordered_dict_logger.py:216-229 | state and result of `log` |
| DictLogger.OrderedDictLogger.Tick | archai/common/ordered_dict_logger.py:216 | the counter grows by one and nothing else changes |
| DictLogger.OrderedDictLogger.LogCounted | archai/common/ordered_dict_logger.py:218-229 | the dictionary and message branches of `log` |
| DictLogger.OrderedDictLogger.LogMessage | archai/common/ordered_dict_logger.py:223-229 | the message is written under the counter through the root node |
| DictLogger.OrderedDictLogger.PushD | archai/common/ordered_dict_logger.py:289-292 | appends the stringified keys and a pending slot, and returns the logger itself |
| DictLogger.OrderedDictLogger.PopD | archai/common/ordered_dict_logger.py:297-302 | drops the last slot, or logs the warning at the root |
| LoggerProperties.ReachBounds | archai/common/ordered_dict_logger.py:105-110 | child links lead only to later dictionaries, so walks never cycle |
| LoggerProperties.ReachKept | archai/common/ordered_dict_logger.py:105-110 | adding dictionaries and keys never breaks an existing path |
| LoggerProperties.WalkReaches | archai/common/ordered_dict_logger.py:105-110 | the walk ends where the links it leaves behind lead |
| LoggerProperties.WalkExisting | archai/common/ordered_dict_logger.py:105-110 | along an existing path the walk creates nothing |
| LoggerProperties.CurrentNodeSettled | archai/common/ordered_dict_logger.py:101-116 | with no pending slot, `current_node` returns the last slot and changes nothing |
| LoggerProperties.FillFromFills | archai/common/ordered_dict_logger.py:101-116 | from slot `i` on, each pending slot gets the dictionary reached from the slot before along its path |
| LoggerProperties.FillPendingFills | archai/common/ordered_dict_logger.py:102-112 | a pending slot is filled by the walk, and the later slots after it |
| LoggerProperties.CurrentNodeFills | archai/common/ordered_dict_logger.py:99-116 | every pending slot is filled with the dictionary reached along its path, and the last slot is returned |
| LoggerProperties.CurrentNodeStable | archai/common/ordered_dict_logger.py:99-116 | repeated calls return the same node and change nothing more |
| LoggerProperties.UpdateKeySettled | archai/common/ordered_dict_logger.py:180-190 | with overriding off, a present string key raises `KeyError` and changes nothing; otherwise `str(key)` is set in the current node and nothing else changes |
| LoggerProperties.UpdateKeyFillsFirst | archai/common/ordered_dict_logger.py:180-183 | `update_key` first materializes the current node; a failure there is the whole outcome |
| LoggerProperties.UpdateSettledWins | archai/common/ordered_dict_logger.py:201-202 | only the current node changes; failure is only `KeyError` with overriding off; on success later pairs win |
| LoggerProperties.UpdateLaterWins | archai/common/ordered_dict_logger.py:201-202 | after a successful `update`, each written key holds its last value and other keys are kept |
| LoggerProperties.ContainsAfterUpdateKey | archai/common/ordered_dict_logger.py:76 | after `update_key(k, v)` succeeds, `k in logger` |
| LoggerProperties.LenAfterUpdateKey | archai/common/ordered_dict_logger.py:81 | `len` grows by one exactly when the key is new |
| LoggerProperties.WriteStores | archai/common/ordered_dict_logger.py:186-190 | the value is stored under `str(key)` in the dictionary reached along the path (the rest of the tree is kept, as `DictLogger.WriteSpec` states) |
| LoggerProperties.LogMessageStored | archai/common/ordered_dict_logger.py:216-229 | the counter advances by one; an unmapped level raises `KeyError` and changes nothing else; on success the message is stored under `str(call_count)` in the level child of the root, or of the current node when the root is empty and overriding is on |
| LoggerProperties.MessageStored | archai/common/ordered_dict_logger.py:223-229 | the message branch fails only on a scalar, and stores where `node or self.current_node` points |
| LoggerProperties.EmptyRootMessage | archai/common/ordered_dict_logger.py:183 | after `pushd("a")` on a new logger, `info` lands under `a/messages`, not under the root |
| LoggerProperties.GuardedRootMessage | archai/common/ordered_dict_logger.py:180-183 | the same call with overriding off lands under the root's `messages` |
| LoggerProperties.PopUndoesPush | archai/common/ordered_dict_logger.py:289-302 | `popd()` after `pushd(*keys)` restores the state exactly |
| LoggerProperties.PopAtRoot | archai/common/ordered_dict_logger.py:297-299 | at the root, `popd` keeps the stack and logs its warning under `warnings` |
| LoggerProperties.PathAfterPush | archai/common/ordered_dict_logger.py:122 | after `pushd(*keys)` the new keys follow the old path, separated by `/` |
| Weights.Max | archai/nlp/nas/evolution.py:340 | `max()` is an element and bounds all elements |
| Weights.Min | archai/nlp/nas/evolution.py:341 | `min()` is an element and is below all elements |
| Weights.Scaled | archai/nlp/nas/evolution.py:345 | one scaled count per count |
| Weights.Inverse | archai/nlp/nas/evolution.py:346 | one inverse per scaled count |
| Weights.DivideAll | archai/nlp/nas/evolution.py:347 | each element is divided by the sum |
| Weights.WeightedCount | archai/nlp/nas/evolution.py:334-351 | fails with the empty-frontier error iff there are no counts, with the zero-range error iff all counts are 0, and otherwise gives one weight per count |
| Weights.ScaledInUnit | archai/nlp/nas/evolution.py:344-345 | every scaled count lies in [0, 1] |
| Weights.InversePositive | archai/nlp/nas/evolution.py:346 | every inverse lies in (0, 1] |
| Weights.SumDivideAll | archai/nlp/nas/evolution.py:347 | dividing every element divides the sum |
| Weights.WeightedCountSucceeds | archai/nlp/nas/evolution.py:340-347 | weights exist iff the frontier is non-empty and some count is positive |
| Weights.WeightsDistribution | archai/nlp/nas/evolution.py:345-349 | one weight per frontier gene, all positive, summing to 1 |
| Weights.Normalised | archai/nlp/nas/evolution.py:347-349 | dividing positive values by their sum gives positive values summing to 1 |
| Weights.WeightsMonotone | archai/nlp/nas/evolution.py:345-347 | a smaller count never gets a smaller weight |
| Weights.EqualCountsUniform | archai/nlp/nas/evolution.py:342-347 | equal positive counts make the range `counts_max` and every weight `1/n` |
| Weights.EqualCountsBounds | archai/nlp/nas/evolution.py:340-343 | equal counts have that count as maximum, minimum and range |
| Weights.EqualCountsUnscaled | archai/nlp/nas/evolution.py:342-346 | equal counts scale to 0 and invert to 1 |
| Weights.CountedFrontierHasWeights | archai/nlp/nas/evolution.py:340-347 | counts of at least 1 always yield weights |
| GeneticOps.CheckConstraints | archai/nlp/nas/evolution.py:211-233 | passes iff within both parameter bounds and, when set, the latency bound; latency is measured iff both parameter checks pass and a bound is set |
| GeneticOps.Pick | archai/nlp/nas/evolution.py:368 | `random.choices(xs)[0]` is a member of `xs` |
| GeneticOps.Sample | archai/nlp/nas/evolution.py:577-578 | a sampled gene lies in the search space |
| GeneticOps.Mutate | archai/nlp/nas/evolution.py:364-372 | a mutant has `gene_size` positions |
| GeneticOps.Cross | archai/nlp/nas/evolution.py:385-393 | a crossover has `gene_size` positions |
| GeneticOps.SamplePair | archai/nlp/nas/evolution.py:667 | `random.sample(parents, 2)` picks two distinct positions |
| GeneticOps.MutateProperties | archai/nlp/nas/evolution.py:364-372 | each position is the parent's or an allowed value; space membership is kept; probability 0 returns the parent |
| GeneticOps.CrossProperties | archai/nlp/nas/evolution.py:385-393 | each position comes from one of the parents; space membership is kept; probability 1 gives the first parent, 0 the second |
| GeneticOps.FirstAccepted | archai/nlp/nas/evolution.py:656-661 | a successful retry loop keeps exactly `need` genes, all drawn from the candidates |
| GeneticOps.FirstAcceptedIsPrefix | archai/nlp/nas/evolution.py:656-661 | a retry loop keeps exactly the first `need` accepted candidates, and fails iff fewer are accepted |
| GeneticOps.AcceptedSound | archai/nlp/nas/evolution.py:574-582 | every accepted candidate passed the test |
| GeneticOps.FirstAcceptedSound | archai/nlp/nas/evolution.py:574-585 | a finished retry loop returns exactly `need` genes, each accepted |
| GeneticOps.RetryStep | archai/nlp/nas/evolution.py:574-582 | one attempt keeps the candidate iff it is accepted, and the retry loop's invariant holds for the next attempt |
| GeneticOps.Samples | archai/nlp/nas/evolution.py:574-578 | one candidate per sampling attempt |
| GeneticOps.Mutants | archai/nlp/nas/evolution.py:656-657 | one mutant per mutation attempt |
| GeneticOps.Crosses | archai/nlp/nas/evolution.py:666-667 | one crossover per crossover attempt |
| GeneticOps.SamplesInSpace | archai/nlp/nas/evolution.py:577-578 | sampled candidates lie in the search space |
| GeneticOps.MutantsInSpace | archai/nlp/nas/evolution.py:657 | mutants of in-space parents lie in the search space |
| GeneticOps.CrossesInSpace | archai/nlp/nas/evolution.py:667 | crossovers of in-space parents lie in the search space |
| GeneticOps.Map | archai/nlp/nas/evolution.py:256-278 | one measurement per gene, in order |
| GeneticOps.Evaluate | archai/nlp/nas/evolution.py:235-285 | the four measurement lists have one entry per gene |
| GeneticOps.EvaluateAppend | archai/nlp/nas/evolution.py:235-285 | measuring `a + b` is measuring `a` and then `b` |
| GeneticOps.MeasureMore | archai/nlp/nas/evolution.py:763-767 | measuring the genes already done and then a new batch gives the histories of measuring both at once |
| GeneticOps.Points | archai/nlp/nas/evolution.py:301-305 | one point per visited gene |
| GeneticOps.FlippedAxis | archai/nlp/nas/evolution.py:301 | the flipped axis is at least 0, is 0 exactly for the largest decoder, and reverses the order of decoder sizes |
| GeneticOps.ParetoUpdate | archai/nlp/nas/evolution.py:295-318 | fails with the empty-history error iff nothing was measured; on success the population and the four histories have one length |
| GeneticOps.FrontParallel | archai/nlp/nas/evolution.py:314-318 | the five frontier lists have one length, and each position describes one visited gene |
| GeneticOps.FrontOfMeasured | archai/nlp/nas/evolution.py:308-318 | histories that measure the visited genes never hit the length asserts, and the frontier holds only visited genes |
| GeneticOps.SliceJoin | archai/nlp/nas/evolution.py:756 | consecutive batch slices join into one |
| GeneticOps.BatchStarts | archai/nlp/nas/evolution.py:755 | `range(start, n, batch)` lies in `[start, n)` and is non-empty iff `start < n` |
| EvolutionSearch.Configure | archai/nlp/nas/evolution.py:85 | construction succeeds iff `population_size == parent_size + mutation_size + crossover_size` and every position has a choice; the size error is raised iff the sizes disagree |
| EvolutionSearch.FrontCounts | archai/nlp/nas/evolution.py:334-338 | one count per frontier gene, 0 for an uncounted gene |
| EvolutionSearch.CountedFrontWeights | archai/nlp/nas/evolution.py:334-347 | with every frontier gene counted, weights exist iff the frontier is non-empty |
| EvolutionSearch.Evolution.constructor | archai/nlp/nas/evolution.py:120-134 | empty counter, histories and frontier |
| EvolutionSearch.Evolution.IsSeenBefore | archai/nlp/nas/evolution.py:406-411 | seen iff the counter holds the gene at least once |
| EvolutionSearch.Evolution.UpdateGeneCount | archai/nlp/nas/evolution.py:421-425 | the gene's count grows by exactly one, and every other count is unchanged |
| EvolutionSearch.Evolution.UpdatePopulationCount | archai/nlp/nas/evolution.py:435-436 | the counter grows by exactly the population |
| EvolutionSearch.Evolution.SampleGene | archai/nlp/nas/evolution.py:575-578 | the position loop draws the sampled gene |
| EvolutionSearch.Evolution.Mutation | archai/nlp/nas/evolution.py:364-372 | the loop builds the mutant |
| EvolutionSearch.Evolution.Crossover | archai/nlp/nas/evolution.py:385-393 | the loop builds the crossover |
| EvolutionSearch.Evolution.CalculateConstraints | archai/nlp/nas/evolution.py:247-285 | the four measurement lists of the genes |
| EvolutionSearch.Evolution.UpdateParetoFront | archai/nlp/nas/evolution.py:295-318 | the frontier is the projection of the histories through the found indices, or empty after a failure |
| EvolutionSearch.Evolution.CalculateWeightedCount | archai/nlp/nas/evolution.py:334-351 | the loop over frontier genes computes the weights of their counts |
| EvolutionSearch.Evolution.SampleRandomPopulation | archai/nlp/nas/evolution.py:571-585 | the retry loop returns the first `n` sampled genes passing the gate, or runs out of draws |
| EvolutionSearch.Evolution.MutationPhase | archai/nlp/nas/evolution.py:655-661 | the first `mutation_size` unseen mutants passing the gate; no parent raises |
| EvolutionSearch.Evolution.CrossoverPhase | archai/nlp/nas/evolution.py:665-671 | the first `crossover_size` unseen crossovers passing the gate; fewer than two parents raise |
| EvolutionSearch.Evolution.SelectParents | archai/nlp/nas/evolution.py:638-647 | the frontier is recomputed; `parent_size` parents are drawn from it, all visited; the length asserts and the zero-range division never fail |
| EvolutionSearch.Evolution.DrawParents | archai/nlp/nas/evolution.py:642-647 | weights fail only on an empty frontier; parents are frontier genes |
| EvolutionSearch.Evolution.FrontierCounted | archai/nlp/nas/evolution.py:596 | every frontier gene has a positive count |
| EvolutionSearch.Evolution.Start | archai/nlp/nas/evolution.py:612 | the first generation measures from 0; the measured suffix `population[idx:]` always has room for the mutated and crossed children |
| EvolutionSearch.Evolution.MeasureGeneration | archai/nlp/nas/evolution.py:612-634 | after measuring `population[idx:]`, the histories measure every visited gene |
| EvolutionSearch.Evolution.Breed | archai/nlp/nas/evolution.py:655-671 | the children are the first `mutation_size` unseen mutants passing the gate followed by the first `crossover_size` unseen crossovers passing it (`Children`); each is in the space, fit and never counted |
| EvolutionSearch.Evolution.Record | archai/nlp/nas/evolution.py:692-696 | the new population is `parents ++ children`; it is counted, and only the children join `all_population` |
| EvolutionSearch.Evolution.Reproduce | archai/nlp/nas/evolution.py:638-696 | the frontier is recomputed (empty after a failure); the parents are the frontier genes the draws select; the population is those parents followed by the mutants and then the crosses; nothing else is recorded on failure |
| EvolutionSearch.Evolution.Offspring | archai/nlp/nas/evolution.py:655-696 | the new population starts with the given parents and continues with their mutants and then their crosses; it is counted, and only the children join `all_population` |
| EvolutionSearch.Evolution.Generation | archai/nlp/nas/evolution.py:611-696 | one iteration: the histories end up measuring every gene visited before it; the frontier is recomputed, or empty after a failure; the new population has `population_size` genes: the frontier genes the draws select, then the mutants, then the crosses, all fit and never counted before; only the children join `all_population`; on failure nothing else is recorded |
| EvolutionSearch.Evolution.Search | archai/nlp/nas/evolution.py:593-696 | a finished search returns `population_size` visited genes; every visited gene is fit and counted; the histories measure a prefix of the visited genes; the length asserts and the zero-range division never fail |
| EvolutionSearch.Evolution.BruteForcePool | archai/nlp/nas/evolution.py:739-751 | a saved population is cut to its first `n` genes; otherwise `n` fit genes are sampled, or the draws run out |
| EvolutionSearch.Evolution.LoadPool | archai/nlp/nas/evolution.py:739-751 | the saved population cut to `n`, or a fresh sample of `n` |
| EvolutionSearch.Evolution.BruteForceBatch | archai/nlp/nas/evolution.py:756-769 | a batch joins the visited genes and histories, and the frontier is recomputed, or empty with the update's error |
| EvolutionSearch.Evolution.RunBatches | archai/nlp/nas/evolution.py:755-769 | the batches visit and measure every gene of the pool, in order; a failure leaves the frontier empty with the update's error |
| EvolutionSearch.Evolution.SemiBruteForce | archai/nlp/nas/evolution.py:725-769 | with the plotting keyword corrected, every gene of the pool is visited and measured, in order, and the frontier is current; a failed update leaves it empty |
| EvolutionSearch.Evolution.FirstBatchAsWritten | archai/nlp/nas/evolution.py:755-771 | as written, with `n == 0` the empty `range` does nothing and the call returns normally; with `n > 0` the first batch is measured and the frontier updated, then the call always raises (the keyword error iff the update succeeded); a pool longer than the batch is left partly unvisited |
| EvolutionSearch.Evolution.SemiBruteForceAsWritten | archai/nlp/nas/evolution.py:725-771 | as written, with `n == 0` it returns the empty pool normally; with `n > 0` only `pool[:batch]` joins the visited genes and the method always ends in an error: the keyword error iff the frontier update succeeded |

## Left out

- File and terminal I/O are not modelled:
  - the pickle reads and writes of `search` and `semi_brute_force`;
  - the per-iteration `logs` dictionaries;
  - `plot_search_state` and the plotting helpers;
  - `print`.
- The job-script generators at the end of `search` are not modelled: they write files.
- The per-generation lists `parents_params` and `population_params` (and their siblings) feed only the logs and the plots, so they are not modelled. Their length asserts (evolution.py:626-629) always hold.
- `_profile` calls only the measurement collaborators, so it is not modelled. Its one observable requirement is that every position has a choice (it reads the first and last choice), and `Configure` keeps that requirement.
- The model evaluator is a parameter. This covers `load_model_formula`, `load_model_from_config`, `measure_parameters`, `measure_inference_latency` and `measure_peak_memory`.
- `find_pareto_points` is not part of this model: it is a parameter. The model makes no claim that the frontier is non-dominated; frontier properties are stated relative to the indices it returns.
- `gene_to_key` is assumed injective, so the counter is a multiset of genes.
- Random draws are explicit inputs. An index draw is reduced modulo the range, so every outcome is reachable, but no sampling distribution is modelled. In particular, the `p=weights` of `np.random.choice` does not affect which parents are drawn. Only the weights' properties are proved.
- The retry loops (evolution.py:574, 656, 666) have no termination argument. They take a finite list of attempts and fail with `DrawsExhausted` when it runs out; a real run would keep drawing.
- Floating point is not modelled: weights, latencies and memories are reals.
- `stat2str`, `plot_epochs`, the `Statistics` mean and standard deviation, and the train-duration sum of `get_summary_text` (analysis_utils.py:167-174) are number formatting, so they are not modelled. A `Statistics` is the sequence of values pushed into it, and a push never fails: log leaves are taken to be numbers, so the `TypeError` that `push` raises on a string or `None` leaf is not modelled, and the success conditions of `EpochStatistics.UpdateFold`, `EpochStatistics.UpdateEpoch` and `EpochStatistics.AccumulateSucceeds` hold under that assumption. The milestone lines are modelled by which milestone and epoch each line shows, not by its text.
- `fix_yaml`, `find_valid_log`, `parse_a_job`, `write_report` and `get_details_text` do YAML and filesystem I/O, so they are not modelled.
- `RunKeys.IsWordChar`: `\w` is modelled on ASCII letters, digits and `_`, while Python's `(?u)` pattern also accepts other Unicode letters and digits. `Text.IsNumeric` is ASCII-only in the same way.
- Logged values are opaque scalars, so a plain `dict` logged through `update` is never walked into. The source's path walk in `update_key` would enter such a dict, and its `current_node` would reject it.
- `DictLogger.LogError`: both the `RuntimeError` of `current_node` and the `TypeError` of `update_key`'s walk through a scalar become `ScalarOnPath`.
- Logger I/O and globals are not modelled: `save`, `load` and `close`, the backup rename in `__init__`, the logging handler call and the time-based autosave in `log`, and the global-instance helpers.
  - `__enter__` returns the logger and `__exit__` calls `popd`, which `PopD` models.
  - A message of `log` is a string. With `level=None` and a dictionary, the handler call raises after the tree update; that handler call is not modelled.
- `EvolutionSearch.Evolution.Search`: requires empty histories, the state of a freshly constructed object. The source resets `all_population` at the start of `search` but extends the history lists, so a search run after `semi_brute_force` would start with lists of different lengths.
- `EvolutionSearch.Evolution.SemiBruteForce`: requires a positive `batch` for its batch claims, and a zero batch raises `ZeroBatch`. A negative batch (an empty `range`) is not modelled, because `batch` is a natural number. Likewise `n_samples` is a natural number, so a negative `n_samples` is not modelled; in the source `population[:n]` would then cut from the end and `range(0, n, batch)` would be empty.
- `GeneticOps.Evaluate`: states only the lengths of the four lists; that each entry measures its own gene is stated by `GeneticOps.Map`, which it is built from.
- `EvolutionSearch.Evolution.RunBatches`: on failure it states that the frontier is empty and which error the update returned, but not which batches were already appended to `all_population` and the histories before the failing one.
- `EvolutionSearch.Evolution.Search`: states the result population and the visited-gene invariant, but not the per-generation frontier. `EvolutionSearch.Evolution.Generation` states that part.

## Findings

| source | as written | input that shows it | evidently intended | confidence | as-written member | corrected member |
|---|---|---|---|---|---|---|
| archai/nlp/nas/evolution.py:771 | `self.plot_search_state(iter=idx)` passes a keyword that `plot_search_state` (evolution.py:438-440) does not have; its parameter is `iteration`, so the call raises `TypeError` | `semi_brute_force(n_samples=2000, batch=1000)`: the first batch is measured and the frontier updated, then `TypeError` is raised, and the batch starting at 1000 is never measured | `self.plot_search_state(iteration=idx)`, so that every batch of `range(0, n_samples, batch)` is measured | high, not executed | EvolutionSearch.Evolution.SemiBruteForceAsWritten | EvolutionSearch.Evolution.SemiBruteForce |
| archai/common/analysis_utils.py:178 | milestone 0 is in the list, passes `len(epoch_stats) >= 0` for every list and reads `epoch_stats[0-1]` | an empty `epoch_stats` raises `IndexError`; a non-empty one prints the last epoch's validation top-1 as `@ 0 epochs` | skip milestone 0, so each line shows the epoch its milestone names | high, not executed | EpochStatistics.MilestonesAsWritten | EpochStatistics.MilestonesCorrected |
