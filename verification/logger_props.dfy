/** Properties of `OrderedDictLogger`: where `current_node` lands and that it is stable, where
    `update_key`, `update` and `log` store values, and how `pushd`, `popd` and `current_path` relate. */
module LoggerProperties {
  import opened Wrappers
  import opened OrderedMaps
  import opened Text
  import opened DictLogger

  /** The dictionary reached from `from` by following existing child links along `path`,
      without creating anything. */
  function Reach(nodes: seq<Dict>, from: nat, path: seq<string>): Option<nat>
    decreases |path|
  {
    if from >= |nodes| then None
    else if path == [] then Some(from)
    else if path[0] in nodes[from].vals && nodes[from].vals[path[0]].Child? then
      Reach(nodes, nodes[from].vals[path[0]].id, path[1..])
    else None
  }

  /** Following `path` from `from` leads to a dictionary holding `value` under `key`. */
  ghost predicate Stored(nodes: seq<Dict>, from: nat, path: seq<string>, key: string, value: string)
  {
    && Reach(nodes, from, path).Some?
    && Reach(nodes, from, path).value < |nodes|
    && key in nodes[Reach(nodes, from, path).value].vals
    && nodes[Reach(nodes, from, path).value].vals[key] == Scalar(value)
  }

  /** Every pending slot has been filled. */
  ghost predicate Settled(s: LoggerState)
  {
    forall j | 0 <= j < |s.stack| :: s.stack[j].Some?
  }

  /** Links lead only to later dictionaries, so a walk never comes back to where it started. */
  lemma {:induction false} ReachBounds(nodes: seq<Dict>, from: nat, path: seq<string>)
    requires ArenaOk(nodes)
    ensures Reach(nodes, from, path).Some? ==>
              && from <= Reach(nodes, from, path).value < |nodes|
              && (path != [] ==> from < Reach(nodes, from, path).value)
    decreases |path|
  {
    if from < |nodes| && path != [] && path[0] in nodes[from].vals && nodes[from].vals[path[0]].Child? {
      ReachBounds(nodes, nodes[from].vals[path[0]].id, path[1..]);
    }
  }

  /** Adding dictionaries and keys never breaks an existing path. */
  lemma {:induction false} ReachKept(a: seq<Dict>, b: seq<Dict>, from: nat, path: seq<string>)
    requires AddsOnly(a, b) && Reach(a, from, path).Some?
    ensures Reach(b, from, path) == Reach(a, from, path)
    decreases |path|
  {
    if path != [] {
      ReachKept(a, b, a[from].vals[path[0]].id, path[1..]);
    }
  }

  /** Replacing the dictionary a path ends at does not disturb the path itself. */
  lemma {:induction false} ReachPut(nodes: seq<Dict>, t: nat, d: Dict, from: nat, path: seq<string>)
    requires ArenaOk(nodes) && t < |nodes| && Reach(nodes, from, path) == Some(t)
    ensures Reach(nodes[t := d], from, path) == Some(t)
    decreases |path|
  {
    if path != [] {
      var next := nodes[from].vals[path[0]].id;
      ReachBounds(nodes, next, path[1..]);
      assert from < next <= t;
      ReachPut(nodes, t, d, next, path[1..]);
    }
  }

  /** The walk of `current_node` and `update_key` ends where the links it leaves behind lead. */
  lemma {:induction false} WalkReaches(nodes: seq<Dict>, cur: nat, path: seq<string>)
    requires ArenaOk(nodes) && cur < |nodes|
    ensures Walk(nodes, cur, path).at.Ok? ==>
              Reach(Walk(nodes, cur, path).nodes, cur, path) == Some(Walk(nodes, cur, path).at.value)
    decreases |path|
  {
    if path != [] {
      var key := path[0];
      if key !in nodes[cur].vals {
        var added := |nodes|;
        var grown := nodes[cur := Put(nodes[cur], key, Child(added))] + [Empty()];
        Grow(nodes, cur, key);
        WalkReaches(grown, added, path[1..]);
        assert grown[cur].vals[key] == Child(added);
      } else if nodes[cur].vals[key].Child? {
        WalkReaches(nodes, nodes[cur].vals[key].id, path[1..]);
      }
    }
  }

  /** Along a path that exists already, the walk creates nothing and ends where the links lead. */
  lemma {:induction false} WalkExisting(nodes: seq<Dict>, cur: nat, path: seq<string>)
    requires ArenaOk(nodes) && cur < |nodes| && Reach(nodes, cur, path).Some?
    ensures Walk(nodes, cur, path) == Walked(nodes, Ok(Reach(nodes, cur, path).value))
    decreases |path|
  {
    if path != [] {
      WalkExisting(nodes, nodes[cur].vals[path[0]].id, path[1..]);
    }
  }

  /** `current_node` on a logger without pending slots returns the last slot and changes nothing. */
  lemma {:induction false} FillFromSettled(s: LoggerState, i: nat, last: nat)
    requires ValidState(s) && Settled(s) && 1 <= i <= |s.stack| && s.stack[i - 1] == Some(last)
    ensures FillFrom(s, i, last) == Outcome(s, Ok(s.stack[|s.stack| - 1].value))
    decreases |s.stack| - i
  {
    if i < |s.stack| {
      FillFromSettled(s, i + 1, s.stack[i].value);
    }
  }

  lemma CurrentNodeSettled(s: LoggerState)
    requires ValidState(s) && Settled(s)
    ensures Fill(s) == Outcome(s, Ok(s.stack[|s.stack| - 1].value))
  {
    FillFromSettled(s, 1, s.stack[0].value);
  }

  /** The general form of `CurrentNodeFills`, from slot `i` on. */
  lemma {:induction false} FillFromFills(s: LoggerState, i: nat, last: nat)
    requires ValidState(s) && 1 <= i <= |s.stack| && last < |s.nodes|
    requires forall j | 0 <= j < i :: s.stack[j].Some?
    requires s.stack[i - 1] == Some(last)
    ensures var o := FillFrom(s, i, last);
            o.result.Ok? ==>
              && Settled(o.state)
              && o.result == Ok(o.state.stack[|s.stack| - 1].value)
              && forall j | i <= j < |s.stack| && s.stack[j].None? ::
                   Reach(o.state.nodes, o.state.stack[j - 1].value, s.paths[j]) == Some(o.state.stack[j].value)
    decreases |s.stack| - i, 2
  {
    if i < |s.stack| {
      if s.stack[i].Some? {
        FillFromFills(s, i + 1, s.stack[i].value);
      } else {
        FillPendingFills(s, i, last);
      }
    }
  }

  /** `FillFromFills` at a pending slot: the walk fills it, and the rest is filled after it. */
  lemma {:induction false} FillPendingFills(s: LoggerState, i: nat, last: nat)
    requires ValidState(s) && 1 <= i < |s.stack| && last < |s.nodes|
    requires forall j | 0 <= j < i :: s.stack[j].Some?
    requires s.stack[i - 1] == Some(last) && s.stack[i].None?
    ensures var o := FillFrom(s, i, last);
            o.result.Ok? ==>
              && Settled(o.state)
              && o.result == Ok(o.state.stack[|s.stack| - 1].value)
              && forall j | i <= j < |s.stack| && s.stack[j].None? ::
                   Reach(o.state.nodes, o.state.stack[j - 1].value, s.paths[j]) == Some(o.state.stack[j].value)
    decreases |s.stack| - i, 1
  {
    var w := Walk(s.nodes, last, s.paths[i]);
    if w.at.Ok? {
      var t := w.at.value;
      var s' := s.(nodes := w.nodes, stack := s.stack[i := Some(t)]);
      FillFromFills(s', i + 1, t);
      var o := FillFrom(s', i + 1, t);
      assert FillFrom(s, i, last) == o;
      if o.result.Ok? {
        WalkReaches(s.nodes, last, s.paths[i]);
        ReachKept(w.nodes, o.state.nodes, last, s.paths[i]);
        assert o.state.stack[i - 1] == Some(last) && o.state.stack[i] == Some(t);
        forall j | i <= j < |s.stack| && s.stack[j].None?
          ensures Reach(o.state.nodes, o.state.stack[j - 1].value, s.paths[j]) == Some(o.state.stack[j].value)
        {
          if j > i {
            assert s'.stack[j].None?;
          }
        }
      }
    }
  }

  /** `current_node` fills every pending slot with the dictionary reached from the slot before it
      along the slot's path, and returns the last slot. */
  lemma CurrentNodeFills(s: LoggerState)
    requires ValidState(s)
    ensures var o := Fill(s);
            o.result.Ok? ==>
              && Settled(o.state)
              && o.result == Ok(o.state.stack[|s.stack| - 1].value)
              && forall j | 1 <= j < |s.stack| && s.stack[j].None? ::
                   Reach(o.state.nodes, o.state.stack[j - 1].value, s.paths[j]) == Some(o.state.stack[j].value)
  {
    FillFromFills(s, 1, s.stack[0].value);
  }

  /** Asking for `current_node` again returns the same dictionary and changes nothing more. */
  lemma CurrentNodeStable(s: LoggerState)
    requires ValidState(s) && Fill(s).result.Ok?
    ensures Fill(Fill(s).state) == Fill(s)
  {
    CurrentNodeFills(s);
    CurrentNodeSettled(Fill(s).state);
  }

  /** `update_key(key, value)` without node or path, once the current node exists: it raises
      `KeyError` for a string key already present when overriding is off, and otherwise sets
      `str(key)` in the current node, changing nothing else. */
  lemma UpdateKeySettled(s: LoggerState, key: Key, value: string, overrideKey: bool)
    requires ValidState(s) && Settled(s)
    ensures var c := s.stack[|s.stack| - 1].value;
            var o := UpdateKeySpec(s, key, value, None, [], overrideKey);
            if !overrideKey && key.Text? && key.s in s.nodes[c].vals then
              o == Outcome(s, Err(KeyInUse(key.s)))
            else
              o == Outcome(s.(nodes := s.nodes[c := Put(s.nodes[c], Str(key), Scalar(value))]), Ok(()))
  {
    CurrentNodeSettled(s);
  }

  /** `update_key` without node or path first materializes the current node: if that fails nothing
      else happens, and otherwise the call behaves as on the filled logger. */
  lemma UpdateKeyFillsFirst(s: LoggerState, key: Key, value: string, overrideKey: bool)
    requires ValidState(s)
    ensures Fill(s).result.Err? ==>
              UpdateKeySpec(s, key, value, None, [], overrideKey) == Outcome(Fill(s).state, Err(Fill(s).result.error))
    ensures Fill(s).result.Ok? ==>
              UpdateKeySpec(s, key, value, None, [], overrideKey)
              == UpdateKeySpec(Fill(s).state, key, value, None, [], overrideKey)
  {
    if Fill(s).result.Ok? {
      CurrentNodeStable(s);
    }
  }

  /** The value that `update(pairs)` leaves under the string `k`: that of the last pair whose
      key's `str()` is `k`. */
  function LastValue(pairs: seq<(Key, string)>, k: string): Option<string>
    decreases |pairs|
  {
    if pairs == [] then None
    else
      var later := LastValue(pairs[1..], k);
      if later.Some? then later
      else if Str(pairs[0].0) == k then Some(pairs[0].1)
      else None
  }

  /** `after` holds exactly the keys of `before` and of the pairs, each pair's key with the value
      of its last occurrence and every other key with its value in `before`. */
  ghost predicate LaterWins(before: Dict, after: Dict, pairs: seq<(Key, string)>)
  {
    forall k ::
      && (k in after.vals <==> k in before.vals || LastValue(pairs, k).Some?)
      && (LastValue(pairs, k).Some? ==> after.vals[k] == Scalar(LastValue(pairs, k).value))
      && (LastValue(pairs, k).None? && k in before.vals ==> after.vals[k] == before.vals[k])
  }

  /** Writing the first pair and then the rest is writing all pairs with later ones winning. */
  lemma LaterWinsStep(before: Dict, after: Dict, pairs: seq<(Key, string)>)
    requires Wf(before) && pairs != []
    requires LaterWins(Put(before, Str(pairs[0].0), Scalar(pairs[0].1)), after, pairs[1..])
    ensures LaterWins(before, after, pairs)
  {
  }

  /** `update(pairs)` on a logger whose current node `c` exists: only `c` changes, and it can only
      fail with `KeyError` when overriding is off; when it succeeds, later pairs win in `c`. */
  lemma {:induction false} UpdateSettledWins(s: LoggerState, pairs: seq<(Key, string)>, overrideKey: bool)
    requires ValidState(s) && Settled(s)
    ensures var c := s.stack[|s.stack| - 1].value;
            var o := UpdateSpec(s, pairs, overrideKey);
            && o.state.stack == s.stack && |o.state.nodes| == |s.nodes|
            && (forall i | 0 <= i < |s.nodes| && i != c :: o.state.nodes[i] == s.nodes[i])
            && (o.result.Err? ==> !overrideKey && o.result.error.KeyInUse?)
            && (o.result.Ok? ==> LaterWins(s.nodes[c], o.state.nodes[c], pairs))
    decreases |pairs|
  {
    var c := s.stack[|s.stack| - 1].value;
    if pairs == [] {
      assert LaterWins(s.nodes[c], s.nodes[c], pairs);
    } else {
      UpdateKeySettled(s, pairs[0].0, pairs[0].1, overrideKey);
      var first := UpdateKeySpec(s, pairs[0].0, pairs[0].1, None, [], overrideKey);
      if first.result.Ok? {
        var written := s.nodes[c := Put(s.nodes[c], Str(pairs[0].0), Scalar(pairs[0].1))];
        assert first.state == s.(nodes := written);
        UpdateSettledWins(first.state, pairs[1..], overrideKey);
        var o := UpdateSpec(first.state, pairs[1..], overrideKey);
        assert UpdateSpec(s, pairs, overrideKey) == o;
        forall i | 0 <= i < |s.nodes| && i != c
          ensures o.state.nodes[i] == s.nodes[i]
        {
          assert o.state.nodes[i] == written[i];
        }
        if o.result.Ok? {
          LaterWinsStep(s.nodes[c], o.state.nodes[c], pairs);
        }
      }
    }
  }

  /** `update(pairs)`: when it succeeds on a non-empty dictionary, the current node (materialized
      by the first `update_key`) holds, for every key written, the value of its last occurrence,
      and keeps every other key it had. */
  lemma UpdateLaterWins(s: LoggerState, pairs: seq<(Key, string)>, overrideKey: bool)
    requires ValidState(s) && pairs != []
    ensures var o := UpdateSpec(s, pairs, overrideKey);
            o.result.Ok? ==>
              && Fill(s).result.Ok?
              && o.state.stack == Fill(s).state.stack
              && LaterWins(Fill(s).state.nodes[Fill(s).result.value], o.state.nodes[Fill(s).result.value], pairs)
  {
    UpdateKeyFillsFirst(s, pairs[0].0, pairs[0].1, overrideKey);
    if Fill(s).result.Ok? {
      CurrentNodeFills(s);
      assert UpdateSpec(s, pairs, overrideKey) == UpdateSpec(Fill(s).state, pairs, overrideKey);
      UpdateSettledWins(Fill(s).state, pairs, overrideKey);
    }
  }

  /** After `update_key(k, value)` succeeds, `k in logger` holds. */
  lemma ContainsAfterUpdateKey(s: LoggerState, k: string, value: string, overrideKey: bool)
    requires ValidState(s)
    ensures var o := UpdateKeySpec(s, Text(k), value, None, [], overrideKey);
            o.result.Ok? ==> ContainsSpec(o.state, Text(k)) == Outcome(o.state, Ok(true))
  {
    UpdateKeyFillsFirst(s, Text(k), value, overrideKey);
    if Fill(s).result.Ok? {
      CurrentNodeFills(s);
      UpdateKeySettled(Fill(s).state, Text(k), value, overrideKey);
      CurrentNodeSettled(UpdateKeySpec(s, Text(k), value, None, [], overrideKey).state);
    }
  }

  /** `len(logger)` grows by one exactly when `update_key` adds a new key to the current node. */
  lemma LenAfterUpdateKey(s: LoggerState, key: Key, value: string, overrideKey: bool)
    requires ValidState(s) && Settled(s)
    ensures var c := s.stack[|s.stack| - 1].value;
            var o := UpdateKeySpec(s, key, value, None, [], overrideKey);
            o.result.Ok? ==>
              LenSpec(o.state) == Outcome(o.state, Ok(Size(s.nodes[c]) + if Str(key) in s.nodes[c].vals then 0 else 1))
  {
    UpdateKeySettled(s, key, value, overrideKey);
    var o := UpdateKeySpec(s, key, value, None, [], overrideKey);
    if o.result.Ok? {
      CurrentNodeSettled(o.state);
    }
  }

  /** The end of `update_key` stores the value in the dictionary reached along the path. */
  lemma WriteStores(s: LoggerState, target: nat, key: Key, value: string, path: seq<string>)
    requires ValidState(s) && target < |s.nodes|
    ensures var o := WriteSpec(s, target, key, value, path);
            o.result.Ok? ==> Stored(o.state.nodes, target, path, Str(key), value)
  {
    var w := Walk(s.nodes, target, path);
    if w.at.Ok? {
      WalkReaches(s.nodes, target, path);
      ReachPut(w.nodes, w.at.value, Put(w.nodes[w.at.value], Str(key), Scalar(value)), target, path);
    }
  }

  /** A non-empty dictionary stays non-empty when keys are only added. */
  lemma NonEmptyKept(a: seq<Dict>, b: seq<Dict>, n: nat)
    requires ArenaOk(a) && ArenaOk(b) && AddsOnly(a, b) && n < |a| && Size(a[n]) > 0
    ensures Size(b[n]) > 0
  {
    assert a[n].keys[0] in a[n].vals;
  }

  /** `log(message, level)`: the counter always advances; an unmapped level raises `KeyError` and
      changes nothing else; otherwise, on success, the message is stored under the new counter in
      the level's child of the root node, or of the current node when the root node is empty and
      overriding is on (`node or self.current_node` treats an empty root as missing). */
  lemma LogMessageStored(s: LoggerState, text: string, level: Level, overrideKey: bool)
    requires ValidState(s)
    ensures var o := LogSpec(s, Message(text), level, overrideKey);
            var root := s.stack[0].value;
            var key := NatToString(s.callCount + 1);
            && o.state.callCount == s.callCount + 1
            && (level == Unmapped ==> o == Outcome(s.(callCount := s.callCount + 1), Err(UnknownLevel)))
            && (level != Unmapped && o.result.Err? ==> o.result.error.ScalarOnPath?)
            && (level != Unmapped && o.result.Ok? && Size(s.nodes[root]) > 0 ==>
                  Stored(o.state.nodes, root, [LevelChild(level)], key, text))
            && (level != Unmapped && o.result.Ok? && Size(s.nodes[root]) == 0 && overrideKey ==>
                  && o.state.stack[|s.stack| - 1].Some?
                  && Stored(o.state.nodes, o.state.stack[|s.stack| - 1].value, [LevelChild(level)], key, text))
  {
    if level != Unmapped {
      var s1 := s.(callCount := s.callCount + 1);
      assert LogSpec(s, Message(text), level, overrideKey) ==
             UpdateKeySpec(s1, NonText(NatToString(s1.callCount)), text, s1.stack[0], [LevelChild(level)], overrideKey);
      MessageStored(s1, text, level, overrideKey);
    }
  }

  /** The message branch of `log` once the counter has advanced: a failure can only be a scalar on
      the path, and a success stores the message under the counter in the level's child of the root
      node, or of the current node when the root is empty and overriding is on. */
  lemma MessageStored(s: LoggerState, text: string, level: Level, overrideKey: bool)
    requires ValidState(s) && level != Unmapped
    ensures var o := UpdateKeySpec(s, NonText(NatToString(s.callCount)), text, s.stack[0], [LevelChild(level)], overrideKey);
            var root := s.stack[0].value;
            var key := NatToString(s.callCount);
            && (o.result.Err? ==> o.result.error.ScalarOnPath?)
            && (o.result.Ok? && Size(s.nodes[root]) > 0 ==> Stored(o.state.nodes, root, [LevelChild(level)], key, text))
            && (o.result.Ok? && Size(s.nodes[root]) == 0 && overrideKey ==>
                  && o.state.stack[|s.stack| - 1].Some?
                  && Stored(o.state.nodes, o.state.stack[|s.stack| - 1].value, [LevelChild(level)], key, text))
  {
    var k := NonText(NatToString(s.callCount));
    var guard := if overrideKey then Outcome(s, Ok(false)) else ContainsSpec(s, k);
    var target := TargetSpec(guard.state, Some(root(s)));
    if Size(s.nodes[root(s)]) > 0 {
      NonEmptyKept(s.nodes, guard.state.nodes, root(s));
    } else if overrideKey {
      CurrentNodeFills(s);
    }
    if target.result.Ok? {
      WriteStores(target.state, target.result.value, k, text, [LevelChild(level)]);
    }
  }

  function root(s: LoggerState): nat
    requires ValidState(s)
  {
    s.stack[0].value
  }

  /** A new logger after `pushd("a")`, its call counter advanced by one `info` call. */
  const pushed: LoggerState := LoggerState([Empty()], [[""], ["a"]], [Some(0), None], 1)

  /** The dictionaries after `current_node` has created `a` under the root of `pushed`. */
  const withA: seq<Dict> := [OrdMap(["a"], map["a" := Child(1)]), Empty()]

  /** `pushed` once `current_node` has filled its pending slot. */
  const filled: LoggerState := LoggerState(withA, [[""], ["a"]], [Some(0), Some(1)], 1)

  /** The first `info` on a logger after `pushd("a")` finds it in state `pushed`, and
      `current_node` then creates `a` under the root and returns it. */
  lemma PushedFills()
    ensures PushSpec(Initial(), [Text("a")]).(callCount := 1) == pushed
    ensures Fill(pushed) == Outcome(filled, Ok(1))
  {
    assert Strs([Text("a")]) == ["a"];
    assert Put(Empty<Value>(), "a", Child(1)) == withA[0];
    assert [Empty<Value>()][0 := withA[0]] + [Empty()] == withA;
    assert ["a"][1..] == [];
    assert Walk([Empty()], 0, ["a"]) == Walked(withA, Ok(1));
  }

  /** The dictionary `messages` holding `text` as message `1`. */
  function FirstMessages(text: string): Dict
  {
    OrdMap(["1"], map["1" := Scalar(text)])
  }

  /** Writing `text` as message `1` under `messages` of dictionary `at` of `filled`, where
      `messages` does not exist yet: `messages` is created as the next dictionary, which holds the
      message. */
  lemma WriteMessage(at: nat, created: seq<Dict>, text: string)
    requires at < 2 && "messages" !in withA[at].vals
    requires created == withA[at := Put(withA[at], "messages", Child(2))] + [Empty()]
    ensures WriteSpec(filled, at, NonText("1"), text, ["messages"]) == Outcome(filled.(nodes := created[2 := FirstMessages(text)]), Ok(()))
  {
    WalkCreatesMessages(at, created);
    assert Put(created[2], "1", Scalar(text)) == FirstMessages(text);
  }

  /** The walk along `["messages"]` from dictionary `at` of `withA` creates `messages` as the next
      dictionary. */
  lemma WalkCreatesMessages(at: nat, created: seq<Dict>)
    requires at < 2 && "messages" !in withA[at].vals
    requires created == withA[at := Put(withA[at], "messages", Child(2))] + [Empty()]
    ensures Walk(withA, at, ["messages"]) == Walked(created, Ok(2))
  {
    assert ["messages"][1..] == [];
  }

  /** The dictionaries after `info(text)` on `pushed` with overriding on: `messages` under `a`. */
  function UnderA(text: string): seq<Dict>
  {
    [withA[0], OrdMap(["messages"], map["messages" := Child(2)]), FirstMessages(text)]
  }

  /** The dictionaries after `info(text)` on `pushed` with overriding off: `messages` under the root. */
  function UnderRoot(text: string): seq<Dict>
  {
    [OrdMap(["a", "messages"], map["a" := Child(1), "messages" := Child(2)]), Empty(), FirstMessages(text)]
  }

  /** Writing the message under `a` of `filled`. */
  lemma WriteUnderA(text: string)
    ensures WriteSpec(filled, 1, NonText("1"), text, ["messages"]) == Outcome(filled.(nodes := UnderA(text)), Ok(()))
  {
    var n2 := [withA[0], OrdMap(["messages"], map["messages" := Child(2)]), Empty()];
    assert Put(Empty<Value>(), "messages", Child(2)) == n2[1];
    assert withA[1 := n2[1]] + [Empty()] == n2;
    WriteMessage(1, n2, text);
    assert n2[2 := FirstMessages(text)] == UnderA(text);
  }

  /** Writing the message under the root of `filled`. */
  lemma WriteUnderRoot(text: string)
    ensures WriteSpec(filled, 0, NonText("1"), text, ["messages"]) == Outcome(filled.(nodes := UnderRoot(text)), Ok(()))
  {
    var n2 := [UnderRoot(text)[0], Empty(), Empty()];
    assert Put(withA[0], "messages", Child(2)) == n2[0];
    assert withA[0 := n2[0]] + [Empty()] == n2;
    WriteMessage(0, n2, text);
    assert n2[2 := FirstMessages(text)] == UnderRoot(text);
  }

  /** With overriding on, `update_key` skips the key check; the root is empty, so the target is
      `current_node`, which is `a`. */
  lemma OverrideWrite(text: string)
    ensures UpdateKeySpec(pushed, NonText("1"), text, Some(0), ["messages"], true) == Outcome(filled.(nodes := UnderA(text)), Ok(()))
  {
    PushedFills();
    assert TargetSpec(pushed, Some(0)) == Outcome(filled, Ok(1));
    WriteUnderA(text);
  }

  /** With overriding off, the key check calls `current_node`, which creates `a` in the root; the
      root is then not empty and is the target. */
  lemma GuardedTarget()
    ensures ContainsSpec(pushed, NonText("1")) == Outcome(filled, Ok(false))
    ensures TargetSpec(filled, Some(0)) == Outcome(filled, Ok(0))
  {
    PushedFills();
  }

  /** With overriding off the message goes under the root. */
  lemma GuardedWrite(text: string)
    ensures UpdateKeySpec(pushed, NonText("1"), text, Some(0), ["messages"], false) == Outcome(filled.(nodes := UnderRoot(text)), Ok(()))
  {
    GuardedTarget();
    WriteUnderRoot(text);
  }

  /** `info(text)` on a new logger after `pushd("a")` is `update_key` of message `1` on `pushed`. */
  lemma FirstMessage(text: string, overrideKey: bool)
    ensures LogSpec(PushSpec(Initial(), [Text("a")]), Message(text), Info, overrideKey)
         == UpdateKeySpec(pushed, NonText("1"), text, Some(0), ["messages"], overrideKey)
  {
    PushedFills();
    assert NatToString(1) == "1";
  }

  /** On a new logger after `pushd("a")`, `info(text)` lands under `a/messages` and not under the
      root's `messages`: the root is still empty, so `node or self.current_node` passes over it. */
  lemma EmptyRootMessage(text: string)
    ensures var o := LogSpec(PushSpec(Initial(), [Text("a")]), Message(text), Info, true);
            && o.result == Ok(())
            && Stored(o.state.nodes, 0, ["a", "messages"], "1", text)
            && "messages" !in o.state.nodes[0].vals
  {
    FirstMessage(text, true);
    OverrideWrite(text);
    StoredUnderA(text);
  }

  lemma StoredUnderA(text: string)
    ensures Stored(UnderA(text), 0, ["a", "messages"], "1", text) && "messages" !in UnderA(text)[0].vals
  {
    assert Reach(UnderA(text), 0, ["a", "messages"]) == Some(2);
  }

  /** The same call with overriding off lands under the root's `messages`: the key check asks for
      `current_node` first, which creates `a` in the root, so the root is no longer empty. */
  lemma GuardedRootMessage(text: string)
    ensures var o := LogSpec(PushSpec(Initial(), [Text("a")]), Message(text), Info, false);
            && o.result == Ok(())
            && Stored(o.state.nodes, 0, ["messages"], "1", text)
  {
    FirstMessage(text, false);
    GuardedWrite(text);
    StoredUnderRoot(text);
  }

  lemma StoredUnderRoot(text: string)
    ensures Stored(UnderRoot(text), 0, ["messages"], "1", text)
  {
    assert Reach(UnderRoot(text), 0, ["messages"]) == Some(2);
  }

  /** `popd()` undoes `pushd(*keys)`. */
  lemma PopUndoesPush(s: LoggerState, keys: seq<Key>)
    requires ValidState(s)
    ensures PopSpec(PushSpec(s, keys)) == Outcome(s, Ok(()))
  {
    var p := PushSpec(s, keys);
    assert p.paths[..|p.paths| - 1] == s.paths;
    assert p.stack[..|p.stack| - 1] == s.stack;
  }

  /** `popd()` on a logger with only the root slot keeps the stack and logs its warning under the
      root's `warnings` when it succeeds. */
  lemma PopAtRoot(s: LoggerState)
    requires ValidState(s) && |s.stack| == 1
    ensures var o := PopSpec(s);
            && o.state.stack == s.stack && o.state.paths == s.paths && o.state.callCount == s.callCount + 1
            && (o.result.Ok? ==> Stored(o.state.nodes, root(s), ["warnings"], NatToString(s.callCount + 1), PopWarning))
  {
    LogMessageStored(s, PopWarning, Warning, true);
    var o := PopSpec(s);
    assert o.state.stack[0] == s.stack[0];
  }

  /** `current_path` after `pushd(*keys)`: the new keys follow the old path, separated by `/`. */
  lemma PathAfterPush(s: LoggerState, keys: seq<Key>)
    requires ValidState(s)
    ensures PathOf(PushSpec(s, keys).paths) ==
              if Concat(s.paths[1..]) == [] then Join("/", Strs(keys))
              else if keys == [] then PathOf(s.paths)
              else PathOf(s.paths) + "/" + Join("/", Strs(keys))
  {
    var p := PushSpec(s, keys).paths;
    var left := Concat(s.paths[1..]);
    assert p[1..] == s.paths[1..] + [Strs(keys)];
    ConcatAppend(s.paths[1..], [Strs(keys)]);
    assert Concat([Strs(keys)]) == Strs(keys) + [] == Strs(keys);
    assert Concat(p[1..]) == left + Strs(keys);
    if left == [] {
      assert Concat(p[1..]) == Strs(keys);
    } else if keys == [] {
      assert Concat(p[1..]) == left;
    } else {
      JoinAppend("/", left, Strs(keys));
    }
  }
}
