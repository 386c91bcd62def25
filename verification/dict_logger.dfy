/** `OrderedDictLogger`: a tree of nested `OrderedDict`s written through a stack of pushed paths.
    The dictionaries are kept in an arena `nodes`, indexed by identity, so that a stack slot that
    holds a dictionary keeps holding that same dictionary even after it is detached from the tree. */
module DictLogger {
  import opened Wrappers
  import opened OrderedMaps
  import opened Text

  /** A value stored in a dictionary: a logged value (kept as its text; a logged dictionary is
      treated as an opaque value) or another dictionary of the arena. */
  datatype Value = Scalar(text: string) | Child(id: nat)

  type Dict = OrdMap<Value>

  /** A key passed by the caller: a string, or any other object together with its `str()`.
      Stored keys are always strings, so a non-string key is never `in` a dictionary. */
  datatype Key = Text(s: string) | NonText(shown: string)

  /** `str(key)` */
  function Str(key: Key): string
  {
    if key.Text? then key.s else key.shown
  }

  /** The `level` argument of `log`: one of the four mapped `logging` levels, or any other. */
  datatype Level = Info | Debug | Warning | Error | Unmapped

  /** `obj` of `log`: a dictionary of key/value pairs, or a message string. */
  datatype LogObject = Pairs(pairs: seq<(Key, string)>) | Message(text: string)

  /** `RuntimeError`/`TypeError` for a path through a scalar, `KeyError` for a key in use,
      and `KeyError` for an unmapped level. */
  datatype LogError = ScalarOnPath(key: string) | KeyInUse(key: string) | UnknownLevel

  /** The child of the root that collects messages of a level. */
  function LevelChild(level: Level): string
    requires level != Unmapped
  {
    match level
    case Info => "messages"
    case Debug => "debugs"
    case Warning => "warnings"
    case Error => "errors"
  }

  /** Every dictionary is well formed and every child reference points into the arena, to a
      dictionary created after its parent (so that the dictionaries form no cycle). */
  ghost predicate ArenaOk(nodes: seq<Dict>)
  {
    forall i | 0 <= i < |nodes| ::
      && Wf(nodes[i])
      && forall k | k in nodes[i].vals :: nodes[i].vals[k].Child? ==> i < nodes[i].vals[k].id < |nodes|
  }

  /** `b` only adds dictionaries and keys to `a`: no existing entry changes or disappears. */
  ghost predicate AddsOnly(a: seq<Dict>, b: seq<Dict>)
  {
    && |a| <= |b|
    && forall i | 0 <= i < |a| :: forall k | k in a[i].vals :: k in b[i].vals && b[i].vals[k] == a[i].vals[k]
  }

  /** Adding an empty dictionary under a missing key keeps the arena consistent and only adds. */
  lemma Grow(nodes: seq<Dict>, cur: nat, key: string)
    requires ArenaOk(nodes) && cur < |nodes| && key !in nodes[cur].vals
    ensures ArenaOk(nodes[cur := Put(nodes[cur], key, Child(|nodes|))] + [Empty()])
    ensures AddsOnly(nodes, nodes[cur := Put(nodes[cur], key, Child(|nodes|))] + [Empty()])
  {
  }

  datatype Walked = Walked(nodes: seq<Dict>, at: Result<nat, LogError>)

  /** Following `path` from dictionary `cur`, creating an empty dictionary for each missing key;
      a key holding a scalar stops the walk with an error, keeping what was created before it. */
  function Walk(nodes: seq<Dict>, cur: nat, path: seq<string>): (w: Walked)
    requires ArenaOk(nodes) && cur < |nodes|
    ensures ArenaOk(w.nodes) && AddsOnly(nodes, w.nodes)
    ensures w.at.Ok? ==> w.at.value < |w.nodes|
    ensures w.at.Err? ==> w.at.error.ScalarOnPath?
    decreases |path|
  {
    if path == [] then Walked(nodes, Ok(cur))
    else
      var key := path[0];
      var d := nodes[cur];
      if key !in d.vals then
        var added := |nodes|;
        var nodes' := nodes[cur := Put(d, key, Child(added))] + [Empty()];
        Grow(nodes, cur, key);
        Walk(nodes', added, path[1..])
      else
        match d.vals[key]
        case Scalar(_) => Walked(nodes, Err(ScalarOnPath(key)))
        case Child(id) => Walk(nodes, id, path[1..])
  }

  /** The logger's state: the arena, the pushed paths, the stack of (possibly pending) nodes
      and the call counter. */
  datatype LoggerState = LoggerState(nodes: seq<Dict>, paths: seq<seq<string>>, stack: seq<Option<nat>>, callCount: nat)

  /** `paths` and `stack` stay parallel and non-empty, the root slot is never pending, and every
      filled slot refers to a dictionary of the arena. */
  ghost predicate ValidState(s: LoggerState)
  {
    && ArenaOk(s.nodes)
    && |s.paths| == |s.stack| >= 1
    && s.stack[0].Some?
    && forall i | 0 <= i < |s.stack| :: s.stack[i].Some? ==> s.stack[i].value < |s.nodes|
  }

  /** The state after an operation and what the operation returned or raised. */
  datatype Outcome<T> = Outcome(state: LoggerState, result: Result<T, LogError>)

  /** The state of a new logger: one empty root dictionary under the root path `[""]`. */
  function Initial(): (s: LoggerState)
    ensures ValidState(s)
  {
    LoggerState([Empty()], [[""]], [Some(0)], 0)
  }

  /** `current_node` from slot `i` on, `last` being the node of slot `i - 1`. */
  function FillFrom(s: LoggerState, i: nat, last: nat): (o: Outcome<nat>)
    requires ValidState(s) && 1 <= i <= |s.stack| && last < |s.nodes|
    ensures ValidState(o.state) && AddsOnly(s.nodes, o.state.nodes)
    ensures o.state.paths == s.paths && o.state.callCount == s.callCount && |o.state.stack| == |s.stack|
    ensures forall j | 0 <= j < |s.stack| && s.stack[j].Some? :: o.state.stack[j] == s.stack[j]
    ensures o.result.Ok? ==> o.result.value < |o.state.nodes|
    ensures o.result.Err? ==> o.result.error.ScalarOnPath?
    decreases |s.stack| - i
  {
    if i == |s.stack| then Outcome(s, Ok(last))
    else if s.stack[i].Some? then FillFrom(s, i + 1, s.stack[i].value)
    else
      var w := Walk(s.nodes, last, s.paths[i]);
      if w.at.Err? then Outcome(s.(nodes := w.nodes), Err(w.at.error))
      else FillFrom(s.(nodes := w.nodes, stack := s.stack[i := Some(w.at.value)]), i + 1, w.at.value)
  }

  /** `current_node`: fills every pending slot by walking its path from the previous node. */
  function Fill(s: LoggerState): (o: Outcome<nat>)
    requires ValidState(s)
    ensures ValidState(o.state) && AddsOnly(s.nodes, o.state.nodes)
    ensures o.result.Err? ==> o.result.error.ScalarOnPath?
    ensures o.state.paths == s.paths && o.state.callCount == s.callCount && |o.state.stack| == |s.stack|
    ensures o.state.stack[0] == s.stack[0]
    ensures o.result.Ok? ==> o.result.value < |o.state.nodes|
  {
    FillFrom(s, 1, s.stack[0].value)
  }

  /** `key in self` */
  function ContainsSpec(s: LoggerState, key: Key): (o: Outcome<bool>)
    requires ValidState(s)
    ensures ValidState(o.state) && AddsOnly(s.nodes, o.state.nodes)
    ensures o.result.Err? ==> o.result.error.ScalarOnPath?
    ensures o.state.paths == s.paths && o.state.callCount == s.callCount && |o.state.stack| == |s.stack|
    ensures o.state.stack[0] == s.stack[0]
  {
    var f := Fill(s);
    if f.result.Err? then Outcome(f.state, Err(f.result.error))
    else Outcome(f.state, Ok(key.Text? && key.s in f.state.nodes[f.result.value].vals))
  }

  /** `len(self)` */
  function LenSpec(s: LoggerState): (o: Outcome<nat>)
    requires ValidState(s)
    ensures ValidState(o.state) && AddsOnly(s.nodes, o.state.nodes)
    ensures o.result.Err? ==> o.result.error.ScalarOnPath?
    ensures o.state.paths == s.paths && o.state.callCount == s.callCount && |o.state.stack| == |s.stack|
    ensures o.state.stack[0] == s.stack[0]
  {
    var f := Fill(s);
    if f.result.Err? then f
    else Outcome(f.state, Ok(Size(f.state.nodes[f.result.value])))
  }

  /** `node or self.current_node`: the given node unless it is missing or empty. */
  function TargetSpec(s: LoggerState, node: Option<nat>): (o: Outcome<nat>)
    requires ValidState(s) && (node.Some? ==> node.value < |s.nodes|)
    ensures ValidState(o.state) && AddsOnly(s.nodes, o.state.nodes)
    ensures o.result.Err? ==> o.result.error.ScalarOnPath?
    ensures o.state.paths == s.paths && o.state.callCount == s.callCount && |o.state.stack| == |s.stack|
    ensures o.state.stack[0] == s.stack[0]
    ensures o.result.Ok? ==> o.result.value < |o.state.nodes|
  {
    if node.Some? && Size(s.nodes[node.value]) > 0 then Outcome(s, Ok(node.value)) else Fill(s)
  }

  /** The end of `update_key`: walks `path` from `target`, creating missing dictionaries, and sets
      `str(key)` to `value` in the dictionary reached. */
  function WriteSpec(s: LoggerState, target: nat, key: Key, value: string, path: seq<string>): (o: Outcome<()>)
    requires ValidState(s) && target < |s.nodes|
    ensures o.result.Err? ==> o.result.error.ScalarOnPath?
    ensures ValidState(o.state) && o.state.paths == s.paths && o.state.callCount == s.callCount
    ensures o.state.stack == s.stack && |s.nodes| <= |o.state.nodes|
    ensures o.result.Err? ==> AddsOnly(s.nodes, o.state.nodes)
    ensures forall i | 0 <= i < |s.nodes| :: forall k | k in s.nodes[i].vals && k != Str(key) ::
              k in o.state.nodes[i].vals && o.state.nodes[i].vals[k] == s.nodes[i].vals[k]
  {
    var w := Walk(s.nodes, target, path);
    if w.at.Err? then Outcome(s.(nodes := w.nodes), Err(w.at.error))
    else
      var t := w.at.value;
      var nodes := w.nodes[t := Put(w.nodes[t], Str(key), Scalar(value))];
      PutKeepsOthers(s.nodes, w.nodes, t, nodes, Str(key));
      Outcome(s.(nodes := nodes), Ok(()))
  }

  /** Setting `k` in dictionary `t` of an arena that only added to `a` keeps every other key of
      every dictionary of `a`. */
  lemma PutKeepsOthers(a: seq<Dict>, b: seq<Dict>, t: nat, c: seq<Dict>, k: string)
    requires AddsOnly(a, b) && t < |b| && Wf(b[t])
    requires |c| == |b| && forall i | 0 <= i < |b| && i != t :: c[i] == b[i]
    requires forall k' | k' in b[t].vals && k' != k :: k' in c[t].vals && c[t].vals[k'] == b[t].vals[k']
    ensures forall i | 0 <= i < |a| :: forall k' | k' in a[i].vals && k' != k ::
              k' in c[i].vals && c[i].vals[k'] == a[i].vals[k']
  {
  }

  /** `update_key(key, value, node, path, override_key)` */
  function UpdateKeySpec(s: LoggerState, key: Key, value: string, node: Option<nat>, path: seq<string>, overrideKey: bool): (o: Outcome<()>)
    requires ValidState(s) && (node.Some? ==> node.value < |s.nodes|)
    ensures ValidState(o.state) && o.state.paths == s.paths && o.state.callCount == s.callCount
    ensures |o.state.stack| == |s.stack| && o.state.stack[0] == s.stack[0] && |s.nodes| <= |o.state.nodes|
  {
    var guard := if overrideKey then Outcome(s, Ok(false)) else ContainsSpec(s, key);
    if guard.result.Err? then Outcome(guard.state, Err(guard.result.error))
    else if guard.result.value then Outcome(guard.state, Err(KeyInUse(Str(key))))
    else
      var target := TargetSpec(guard.state, node);
      if target.result.Err? then Outcome(target.state, Err(target.result.error))
      else WriteSpec(target.state, target.result.value, key, value, path)
  }

  /** `update(obj, override_key)`: `update_key` on each pair in order, up to the first error. */
  function UpdateSpec(s: LoggerState, pairs: seq<(Key, string)>, overrideKey: bool): (o: Outcome<()>)
    requires ValidState(s)
    ensures ValidState(o.state) && o.state.paths == s.paths && o.state.callCount == s.callCount
    ensures |o.state.stack| == |s.stack| && o.state.stack[0] == s.stack[0] && |s.nodes| <= |o.state.nodes|
    decreases |pairs|
  {
    if pairs == [] then Outcome(s, Ok(()))
    else
      var o := UpdateKeySpec(s, pairs[0].0, pairs[0].1, None, [], overrideKey);
      if o.result.Err? then o else UpdateSpec(o.state, pairs[1..], overrideKey)
  }

  /** `log(obj, level, override_key)`, without the handler output and the timed save. */
  function LogSpec(s: LoggerState, obj: LogObject, level: Level, overrideKey: bool): (o: Outcome<()>)
    requires ValidState(s)
    ensures ValidState(o.state) && o.state.paths == s.paths && o.state.callCount == s.callCount + 1
    ensures |o.state.stack| == |s.stack| && o.state.stack[0] == s.stack[0]
  {
    LogCountedSpec(s.(callCount := s.callCount + 1), obj, level, overrideKey)
  }

  /** What `log` does once the counter has been advanced: pairs are written with `update`, a
      message is stored under the counter in the level's child of the root node. */
  function LogCountedSpec(s: LoggerState, obj: LogObject, level: Level, overrideKey: bool): (o: Outcome<()>)
    requires ValidState(s)
    ensures ValidState(o.state) && o.state.paths == s.paths && o.state.callCount == s.callCount
    ensures |o.state.stack| == |s.stack| && o.state.stack[0] == s.stack[0]
  {
    match obj
    case Pairs(pairs) => UpdateSpec(s, pairs, overrideKey)
    case Message(text) =>
      if level == Unmapped then Outcome(s, Err(UnknownLevel))
      else UpdateKeySpec(s, NonText(NatToString(s.callCount)), text, s.stack[0], [LevelChild(level)], overrideKey)
  }

  /** `[str(k) for k in keys]` */
  function Strs(keys: seq<Key>): (r: seq<string>)
    ensures |r| == |keys| && forall j | 0 <= j < |keys| :: r[j] == Str(keys[j])
  {
    if keys == [] then [] else [Str(keys[0])] + Strs(keys[1..])
  }

  /** `pushd(*keys)` */
  function PushSpec(s: LoggerState, keys: seq<Key>): (r: LoggerState)
    requires ValidState(s)
    ensures ValidState(r)
  {
    s.(paths := s.paths + [Strs(keys)], stack := s.stack + [None])
  }

  const PopWarning := "Invalid call. No available child in the stack."

  /** `popd()`: drops the last slot, or logs a warning when only the root is left. */
  function PopSpec(s: LoggerState): (o: Outcome<()>)
    requires ValidState(s)
    ensures ValidState(o.state)
  {
    if |s.stack| == 1 then LogSpec(s, Message(PopWarning), Warning, true)
    else Outcome(s.(paths := s.paths[..|s.paths| - 1], stack := s.stack[..|s.stack| - 1]), Ok(()))
  }

  /** `current_path`: the `/`-join of all keys pushed after the root entry. */
  function PathOf(paths: seq<seq<string>>): (r: string)
    requires |paths| >= 1
    ensures |paths| == 1 ==> r == ""
  {
    Join("/", Concat(paths[1..]))
  }

  class OrderedDictLogger {
    var nodes: seq<Dict>
    var paths: seq<seq<string>>
    var stack: seq<Option<nat>>
    var callCount: nat

    function State(): LoggerState
      reads this
    {
      LoggerState(nodes, paths, stack, callCount)
    }

    ghost predicate Valid()
      reads this
    {
      ValidState(State())
    }

    /** `OrderedDictLogger()`, without the logging handler, the file path and the backup rename. */
    constructor()
      ensures Valid()
      ensures State() == Initial()
      ensures paths == [[""]] && stack == [Some(0)] && nodes == [Empty()] && callCount == 0
    {
      nodes := [Empty()];
      paths := [[""]];
      stack := [Some(0)];
      callCount := 0;
    }

    /** `root_node` */
    function RootNode(): (r: nat)
      reads this
      requires Valid()
      ensures r < |nodes| && stack[0] == Some(r)
    {
      stack[0].value
    }

    /** `current_path` */
    function CurrentPath(): (r: string)
      reads this
      requires Valid()
      ensures r == PathOf(paths)
      ensures |paths| == 1 ==> r == ""
    {
      PathOf(paths)
    }

    /** The walk along `path` from `start`, as done by the loops of `current_node` and `update_key`. */
    method Descend(start: nat, path: seq<string>) returns (r: Result<nat, LogError>)
      requires Valid() && start < |nodes|
      modifies this`nodes
      ensures Valid()
      ensures nodes == Walk(old(nodes), start, path).nodes && r == Walk(old(nodes), start, path).at
    {
      var cur: nat := start;
      for k := 0 to |path|
        invariant ArenaOk(nodes) && cur < |nodes| && |old(nodes)| <= |nodes|
        invariant Walk(old(nodes), start, path) == Walk(nodes, cur, path[k..])
      {
        var key := path[k];
        assert path[k..][0] == key && path[k..][1..] == path[k + 1..];
        if key !in nodes[cur].vals {
          var added := |nodes|;
          Grow(nodes, cur, key);
          nodes := nodes[cur := Put(nodes[cur], key, Child(added))] + [Empty()];
          cur := added;
        } else if nodes[cur].vals[key].Scalar? {
          r := Err(ScalarOnPath(key));
          return;
        } else {
          cur := nodes[cur].vals[key].id;
        }
      }
      r := Ok(cur);
    }

    /** `current_node` */
    method CurrentNode() returns (r: Result<nat, LogError>)
      requires Valid()
      modifies this
      ensures Valid()
      ensures State() == Fill(old(State())).state && r == Fill(old(State())).result
    {
      var last: nat := stack[0].value;
      for i := 1 to |stack|
        invariant Valid() && last < |nodes|
        invariant paths == old(paths) && callCount == old(callCount)
        invariant Fill(old(State())) == FillFrom(State(), i, last)
      {
        var obj := stack[i];
        if obj.None? {
          var found := Descend(last, paths[i]);
          if found.Err? {
            r := Err(found.error);
            return;
          }
          obj := Some(found.value);
          stack := stack[i := obj];
        }
        last := obj.value;
      }
      r := Ok(last);
    }

    /** `key in logger` */
    method Contains(key: Key) returns (r: Result<bool, LogError>)
      requires Valid()
      modifies this
      ensures Valid()
      ensures State() == ContainsSpec(old(State()), key).state && r == ContainsSpec(old(State()), key).result
    {
      var current := CurrentNode();
      if current.Err? {
        return Err(current.error);
      }
      r := Ok(key.Text? && key.s in nodes[current.value].vals);
    }

    /** `len(logger)` */
    method Len() returns (r: Result<nat, LogError>)
      requires Valid()
      modifies this
      ensures Valid()
      ensures State() == LenSpec(old(State())).state && r == LenSpec(old(State())).result
    {
      var current := CurrentNode();
      if current.Err? {
        return Err(current.error);
      }
      r := Ok(Size(nodes[current.value]));
    }

    /** `update_key(key, value, node, path, override_key)` */
    method UpdateKey(key: Key, value: string, node: Option<nat>, path: seq<string>, overrideKey: bool)
      returns (r: Result<(), LogError>)
      requires Valid() && (node.Some? ==> node.value < |nodes|)
      modifies this
      ensures Valid()
      ensures State() == UpdateKeySpec(old(State()), key, value, node, path, overrideKey).state
      ensures r == UpdateKeySpec(old(State()), key, value, node, path, overrideKey).result
    {
      if !overrideKey {
        var inUse := Contains(key);
        if inUse.Err? {
          return Err(inUse.error);
        }
        if inUse.value {
          return Err(KeyInUse(Str(key)));
        }
      }
      var target: nat;
      if node.Some? && Size(nodes[node.value]) > 0 {
        target := node.value;
      } else {
        var current := CurrentNode();
        if current.Err? {
          return Err(current.error);
        }
        target := current.value;
      }
      r := WriteAt(target, key, value, path);
    }

    /** The end of `update_key`: the walk along `path` and the assignment of `str(key)`. */
    method WriteAt(target: nat, key: Key, value: string, path: seq<string>) returns (r: Result<(), LogError>)
      requires Valid() && target < |nodes|
      modifies this
      ensures Valid()
      ensures State() == WriteSpec(old(State()), target, key, value, path).state
      ensures r == WriteSpec(old(State()), target, key, value, path).result
    {
      var reached := Descend(target, path);
      if reached.Err? {
        return Err(reached.error);
      }
      nodes := nodes[reached.value := Put(nodes[reached.value], Str(key), Scalar(value))];
      r := Ok(());
    }

    /** `update(obj, override_key)` */
    method Update(pairs: seq<(Key, string)>, overrideKey: bool) returns (r: Result<(), LogError>)
      requires Valid()
      modifies this
      ensures Valid()
      ensures State() == UpdateSpec(old(State()), pairs, overrideKey).state
      ensures r == UpdateSpec(old(State()), pairs, overrideKey).result
    {
      for i := 0 to |pairs|
        invariant Valid()
        invariant UpdateSpec(old(State()), pairs, overrideKey) == UpdateSpec(State(), pairs[i..], overrideKey)
      {
        assert pairs[i..][0] == pairs[i] && pairs[i..][1..] == pairs[i + 1..];
        var done := UpdateKey(pairs[i].0, pairs[i].1, None, [], overrideKey);
        if done.Err? {
          return done;
        }
      }
      r := Ok(());
    }

    /** `log(obj, level, override_key)` */
    method Log(obj: LogObject, level: Level, overrideKey: bool) returns (r: Result<(), LogError>)
      requires Valid()
      modifies this
      ensures Valid()
      ensures State() == LogSpec(old(State()), obj, level, overrideKey).state
      ensures r == LogSpec(old(State()), obj, level, overrideKey).result
    {
      Tick();
      r := LogCounted(obj, level, overrideKey);
    }

    /** `self.call_count += 1` */
    method Tick()
      requires Valid()
      modifies this
      ensures Valid()
      ensures State() == old(State()).(callCount := old(callCount) + 1)
    {
      callCount := callCount + 1;
    }

    /** The body of `log` after the counter is advanced. */
    method LogCounted(obj: LogObject, level: Level, overrideKey: bool) returns (r: Result<(), LogError>)
      requires Valid()
      modifies this
      ensures Valid()
      ensures State() == LogCountedSpec(old(State()), obj, level, overrideKey).state
      ensures r == LogCountedSpec(old(State()), obj, level, overrideKey).result
    {
      if obj.Pairs? {
        r := Update(obj.pairs, overrideKey);
      } else if level == Unmapped {
        r := Err(UnknownLevel);
      } else {
        r := LogMessage(obj.text, level, overrideKey);
      }
    }

    /** The message branch of `log`, after the counter is advanced: the message is stored under
        the counter in the level's child of the root node. */
    method LogMessage(text: string, level: Level, overrideKey: bool) returns (r: Result<(), LogError>)
      requires Valid() && level != Unmapped
      modifies this
      ensures Valid()
      ensures State() == UpdateKeySpec(old(State()), NonText(NatToString(callCount)), text, Some(old(RootNode())), [LevelChild(level)], overrideKey).state
      ensures r == UpdateKeySpec(old(State()), NonText(NatToString(callCount)), text, Some(old(RootNode())), [LevelChild(level)], overrideKey).result
    {
      r := UpdateKey(NonText(NatToString(callCount)), text, Some(RootNode()), [LevelChild(level)], overrideKey);
    }

    /** `pushd(*keys)`: returns the logger itself. */
    method PushD(keys: seq<Key>) returns (self: OrderedDictLogger)
      requires Valid()
      modifies this
      ensures Valid() && self == this
      ensures State() == PushSpec(old(State()), keys)
    {
      paths := paths + [Strs(keys)];
      stack := stack + [None];
      self := this;
    }

    /** `popd()` */
    method PopD() returns (r: Result<(), LogError>)
      requires Valid()
      modifies this
      ensures Valid()
      ensures State() == PopSpec(old(State())).state && r == PopSpec(old(State())).result
    {
      if |stack| == 1 {
        r := Log(Message(PopWarning), Warning, true);
        return;
      }
      stack := stack[..|stack| - 1];
      paths := paths[..|paths| - 1];
      r := Ok(());
    }
  }
}
