/** The pieces of the evolutionary search that compute values: the constraint gate, random sampling,
    mutation and crossover with their random draws given explicitly, the retry loops' acceptance,
    the measurements of visited genes, the sign flip before the frontier search and the frontier's
    projection, and the batch slicing of the brute-force ablation. */
module GeneticOps {
  import opened Wrappers
  import Weights

  /** A gene: one chosen value per position of the search space. */
  type Gene = seq<int>

  /** `allowed[k]` lists the values position `k` may take. */
  ghost predicate InSpace(allowed: seq<seq<int>>, g: Gene)
  {
    |g| == |allowed| && forall k | 0 <= k < |g| :: g[k] in allowed[k]
  }

  predicate NonEmptyChoices(allowed: seq<seq<int>>)
  {
    forall k | 0 <= k < |allowed| :: |allowed[k]| > 0
  }

  /** The collaborators that build and measure a model from a gene: the analytical parameter
      formula, the measured decoder and total parameter counts, latency and peak memory. */
  datatype Evaluator = Evaluator(
    formulaTotal: Gene -> int,
    params: Gene -> nat,
    totalParams: Gene -> nat,
    latency: Gene -> real,
    memory: Gene -> real)

  /** `param_constraint_lower`, `param_constraint_upper` and `latency_constraint_upper`. */
  datatype Limits = Limits(paramLower: int, paramUpper: int, latencyUpper: Option<real>)

  /** The verdict of `_check_constraints`, and whether it had to measure the latency. */
  datatype Check = Check(passed: bool, latencyMeasured: bool)

  datatype SearchError =
    | SizeMismatch               // population size is not parents + mutations + crossovers
    | EmptyChoices               // a position of the search space has no value to choose
    | DrawsExhausted             // a retry loop needed more random draws than were supplied
    | EmptyHistory               // `max()` of an empty list of decoder parameters
    | HistoryMismatch            // history lists of different lengths reach the frontier update
    | FrontierIndexOutOfRange    // the frontier search returned an index outside the history
    | NoFrontierWeights(error: Weights.WeightError)
    | NoParents                  // `random.choices` on an empty parent list
    | TooFewParents              // `random.sample(parents, 2)` with fewer than two parents
    | ZeroBatch                  // `range(0, n, 0)`
    | UnexpectedKeyword          // `plot_search_state(iter=...)`: the method has no parameter `iter`

  /** `_check_constraints(gene)`: the analytical total must lie within the parameter bounds, and only
      then, if a latency bound is set, is the latency measured and compared with it. */
  function CheckConstraints(ev: Evaluator, lim: Limits, g: Gene): (c: Check)
    ensures c.latencyMeasured <==> lim.paramLower <= ev.formulaTotal(g) <= lim.paramUpper && lim.latencyUpper.Some?
    ensures c.passed <==>
              && lim.paramLower <= ev.formulaTotal(g) <= lim.paramUpper
              && (lim.latencyUpper.Some? ==> ev.latency(g) <= lim.latencyUpper.value)
  {
    var total := ev.formulaTotal(g);
    if total < lim.paramLower then Check(false, false)
    else if total > lim.paramUpper then Check(false, false)
    else if lim.latencyUpper.None? then Check(true, false)
    else Check(ev.latency(g) <= lim.latencyUpper.value, true)
  }

  /** `random.choices(choices)[0]` with the draw given: every draw picks a value, every value can be picked. */
  function Pick(choices: seq<int>, draw: nat): (v: int)
    requires |choices| > 0
    ensures v in choices
  {
    choices[draw % |choices|]
  }

  /** The gene drawn by `sample_random_population`, with `pick(k)` the draw for position `k`. */
  function Sample(allowed: seq<seq<int>>, pick: nat -> nat): (g: Gene)
    requires NonEmptyChoices(allowed)
    ensures InSpace(allowed, g)
  {
    var g := seq(|allowed|, k requires 0 <= k < |allowed| => Pick(allowed[k], pick(k)));
    assert forall k | 0 <= k < |g| :: g[k] == Pick(allowed[k], pick(k)) && Pick(allowed[k], pick(k)) in allowed[k];
    g
  }

  /** `_mutation(gene)`: position `k` is redrawn when the uniform draw `uniform(k)` is below the
      mutation probability, and copied from the parent otherwise. */
  function Mutate(allowed: seq<seq<int>>, prob: real, gene: Gene, uniform: nat -> real, pick: nat -> nat): (m: Gene)
    requires NonEmptyChoices(allowed) && |gene| == |allowed|
    ensures |m| == |allowed|
  {
    seq(|allowed|, k requires 0 <= k < |allowed| =>
      if uniform(k) < prob then Pick(allowed[k], pick(k)) else gene[k])
  }

  /** `_crossover([first, second])`: position `k` comes from the first parent when the uniform draw
      `uniform(k)` is below the crossover probability, and from the second otherwise. */
  function Cross(prob: real, first: Gene, second: Gene, uniform: nat -> real): (c: Gene)
    requires |first| == |second|
    ensures |c| == |first|
  {
    seq(|first|, k requires 0 <= k < |first| => if uniform(k) < prob then first[k] else second[k])
  }

  /** `random.sample(range(n), 2)` with the draws given: two distinct positions, in draw order. */
  function SamplePair(n: nat, first: nat, second: nat): (p: (nat, nat))
    requires n >= 2
    ensures p.0 < n && p.1 < n && p.0 != p.1
  {
    var a := first % n;
    var b := second % (n - 1);
    (a, if b < a then b else b + 1)
  }

  lemma MutateProperties(allowed: seq<seq<int>>, prob: real, gene: Gene, uniform: nat -> real, pick: nat -> nat)
    requires NonEmptyChoices(allowed) && |gene| == |allowed|
    ensures var m := Mutate(allowed, prob, gene, uniform, pick);
            && |m| == |allowed|
            && (forall k | 0 <= k < |m| :: m[k] == gene[k] || m[k] in allowed[k])
            && (InSpace(allowed, gene) ==> InSpace(allowed, m))
            && ((forall k :: uniform(k) >= 0.0) && prob <= 0.0 ==> m == gene)
  {
    var m := Mutate(allowed, prob, gene, uniform, pick);
    if (forall k :: uniform(k) >= 0.0) && prob <= 0.0 {
      forall k | 0 <= k < |m| ensures m[k] == gene[k] {
        assert uniform(k) >= 0.0;
      }
    }
  }

  lemma CrossProperties(prob: real, first: Gene, second: Gene, uniform: nat -> real, allowed: seq<seq<int>>)
    requires |first| == |second|
    ensures var c := Cross(prob, first, second, uniform);
            && |c| == |first|
            && (forall k | 0 <= k < |c| :: c[k] == first[k] || c[k] == second[k])
            && (InSpace(allowed, first) && InSpace(allowed, second) ==> InSpace(allowed, c))
            && ((forall k :: 0.0 <= uniform(k) < 1.0) && prob >= 1.0 ==> c == first)
            && ((forall k :: 0.0 <= uniform(k) < 1.0) && prob <= 0.0 ==> c == second)
  {
    var c := Cross(prob, first, second, uniform);
    if forall k :: 0.0 <= uniform(k) < 1.0 {
      forall k | 0 <= k < |c|
        ensures prob >= 1.0 ==> c[k] == first[k]
        ensures prob <= 0.0 ==> c[k] == second[k]
      {
        assert 0.0 <= uniform(k) < 1.0;
      }
    }
  }

  /** The retry loops (`while k < size`): candidates are made one attempt after another, a
      candidate is kept when `ok` accepts it, and the loop stops once `need` are kept; `None` when
      the attempts run out first. */
  function FirstAccepted(candidates: seq<Gene>, ok: Gene -> bool, need: nat): (r: Option<seq<Gene>>)
    ensures r.Some? ==> |r.value| == need && forall g | g in r.value :: g in candidates
    decreases |candidates|
  {
    if need == 0 then Some([])
    else if candidates == [] then None
    else if ok(candidates[0]) then
      match FirstAccepted(candidates[1..], ok, need - 1)
      case None => None
      case Some(rest) => Some([candidates[0]] + rest)
    else FirstAccepted(candidates[1..], ok, need)
  }

  /** Every candidate that passes `ok`, in draw order. */
  function Accepted(candidates: seq<Gene>, ok: Gene -> bool): seq<Gene>
    decreases |candidates|
  {
    if candidates == [] then []
    else
      var rest := Accepted(candidates[1..], ok);
      if ok(candidates[0]) then [candidates[0]] + rest else rest
  }

  /** The retry loop keeps exactly the first `need` accepted candidates, and fails exactly when
      fewer than `need` candidates are accepted. */
  lemma {:induction false} FirstAcceptedIsPrefix(candidates: seq<Gene>, ok: Gene -> bool, need: nat)
    ensures FirstAccepted(candidates, ok, need) ==
              if need <= |Accepted(candidates, ok)| then Some(Accepted(candidates, ok)[..need]) else None
    decreases |candidates|
  {
    if need > 0 && candidates != [] {
      var rest := Accepted(candidates[1..], ok);
      var g := candidates[0];
      if ok(g) {
        FirstAcceptedIsPrefix(candidates[1..], ok, need - 1);
        if need - 1 <= |rest| {
          assert ([g] + rest)[..need] == [g] + rest[..need - 1];
        }
      } else {
        FirstAcceptedIsPrefix(candidates[1..], ok, need);
      }
    }
  }

  /** Every accepted candidate passes `ok` and is a candidate. */
  lemma {:induction false} AcceptedSound(candidates: seq<Gene>, ok: Gene -> bool)
    ensures forall g | g in Accepted(candidates, ok) :: ok(g) && g in candidates
    decreases |candidates|
  {
    if candidates != [] {
      AcceptedSound(candidates[1..], ok);
    }
  }

  /** A successful retry loop returns exactly `need` genes, each accepted and each a candidate. */
  lemma FirstAcceptedSound(candidates: seq<Gene>, ok: Gene -> bool, need: nat)
    ensures var r := FirstAccepted(candidates, ok, need);
            r.Some? ==> |r.value| == need && forall g | g in r.value :: ok(g) && g in candidates
  {
    FirstAcceptedIsPrefix(candidates, ok, need);
    AcceptedSound(candidates, ok);
    var r := FirstAccepted(candidates, ok, need);
    if r.Some? {
      forall g | g in r.value ensures g in Accepted(candidates, ok) {
      }
    }
  }

  /** A retry loop as a result: `None` means the supplied draws ran out. */
  function Drawn(r: Option<seq<Gene>>): Result<seq<Gene>, SearchError>
  {
    if r.None? then Err(DrawsExhausted) else Ok(r.value)
  }

  /** `kept` followed by what the rest of a retry loop returns. */
  function Prepend(kept: seq<Gene>, o: Option<seq<Gene>>): Option<seq<Gene>>
  {
    if o.None? then None else Some(kept + o.value)
  }

  /** The state of a retry loop after `j` attempts, having kept `kept`: what the whole loop returns
      is `kept` followed by what the remaining attempts return. */
  ghost predicate Retrying(candidates: seq<Gene>, ok: Gene -> bool, need: nat, j: nat, kept: seq<Gene>)
  {
    && j <= |candidates| && |kept| <= need
    && FirstAccepted(candidates, ok, need) == Prepend(kept, FirstAccepted(candidates[j..], ok, need - |kept|))
  }

  lemma RetryStart(candidates: seq<Gene>, ok: Gene -> bool, need: nat)
    ensures Retrying(candidates, ok, need, 0, [])
  {
    assert candidates[0..] == candidates;
    var o := FirstAccepted(candidates, ok, need);
    if o.Some? {
      assert [] + o.value == o.value;
    }
  }

  /** A retry loop that has kept all it needs returns what it kept. */
  lemma RetryDone(candidates: seq<Gene>, ok: Gene -> bool, need: nat, j: nat, kept: seq<Gene>)
    requires Retrying(candidates, ok, need, j, kept) && |kept| == need
    ensures FirstAccepted(candidates, ok, need) == Some(kept)
  {
    assert kept + [] == kept;
  }

  /** A retry loop that runs out of attempts before keeping all it needs fails. */
  lemma RetryExhausted(candidates: seq<Gene>, ok: Gene -> bool, need: nat, kept: seq<Gene>)
    requires Retrying(candidates, ok, need, |candidates|, kept) && |kept| < need
    ensures FirstAccepted(candidates, ok, need) == None
  {
    assert candidates[|candidates|..] == [];
  }

  /** One turn of a retry loop: the candidate at `j` is kept when accepted, and what the whole loop
      returns is unchanged. */
  lemma RetryStep(candidates: seq<Gene>, ok: Gene -> bool, need: nat, j: nat, kept: seq<Gene>)
    requires Retrying(candidates, ok, need, j, kept)
    requires j < |candidates| && |kept| < need
    ensures Retrying(candidates, ok, need, j + 1, if ok(candidates[j]) then kept + [candidates[j]] else kept)
  {
    assert candidates[j..][0] == candidates[j];
    assert candidates[j..][1..] == candidates[j + 1..];
    var g := candidates[j];
    if ok(g) {
      var rest := FirstAccepted(candidates[j + 1..], ok, need - |kept| - 1);
      if rest.Some? {
        assert kept + ([g] + rest.value) == (kept + [g]) + rest.value;
      }
    }
  }

  /** The draws of one attempt of the mutation loop: which parent `random.choices` returns, and
      the uniform draw and the choice draw at every position. */
  datatype MutationDraw = MutationDraw(parent: nat, uniform: nat -> real, pick: nat -> nat)

  /** The draws of one attempt of the crossover loop: the two draws of `random.sample` and the
      uniform draw at every position. */
  datatype CrossoverDraw = CrossoverDraw(first: nat, second: nat, uniform: nat -> real)

  /** The draws of one generation: `select(j)` is the frontier position `np.random.choice` returns
      for the `j`-th parent, then the attempts of the mutation and crossover loops. */
  datatype GenerationDraws = GenerationDraws(select: nat -> nat, mutations: seq<MutationDraw>, crossovers: seq<CrossoverDraw>)

  predicate GeneSized(allowed: seq<seq<int>>, genes: seq<Gene>)
  {
    forall i | 0 <= i < |genes| :: |genes[i]| == |allowed|
  }

  /** The candidates of the sampling loop, one per attempt. */
  function Samples(allowed: seq<seq<int>>, attempts: seq<nat -> nat>): (c: seq<Gene>)
    requires NonEmptyChoices(allowed)
    ensures |c| == |attempts|
  {
    seq(|attempts|, i requires 0 <= i < |attempts| => Sample(allowed, attempts[i]))
  }

  /** The candidates of the mutation loop: a mutation of the drawn parent per attempt. */
  function Mutants(allowed: seq<seq<int>>, prob: real, parents: seq<Gene>, attempts: seq<MutationDraw>): (c: seq<Gene>)
    requires NonEmptyChoices(allowed) && |parents| > 0 && GeneSized(allowed, parents)
    ensures |c| == |attempts|
  {
    seq(|attempts|, i requires 0 <= i < |attempts| =>
      Mutate(allowed, prob, parents[attempts[i].parent % |parents|], attempts[i].uniform, attempts[i].pick))
  }

  /** The candidates of the crossover loop: the crossover of two distinct drawn parents per attempt. */
  function Crosses(allowed: seq<seq<int>>, prob: real, parents: seq<Gene>, attempts: seq<CrossoverDraw>): (c: seq<Gene>)
    requires |parents| >= 2 && GeneSized(allowed, parents)
    ensures |c| == |attempts|
  {
    seq(|attempts|, i requires 0 <= i < |attempts| =>
      var p := SamplePair(|parents|, attempts[i].first, attempts[i].second);
      Cross(prob, parents[p.0], parents[p.1], attempts[i].uniform))
  }

  /** The acceptance test of the sampling loop. */
  function Passes(ev: Evaluator, lim: Limits): Gene -> bool
  {
    g => CheckConstraints(ev, lim, g).passed
  }

  /** The acceptance test of the mutation and crossover loops: within the constraints and never
      counted before. */
  function PassesUnseen(ev: Evaluator, lim: Limits, counts: multiset<Gene>): Gene -> bool
  {
    g => CheckConstraints(ev, lim, g).passed && counts[g] == 0
  }

  /** Sampled candidates lie in the search space. */
  lemma SamplesInSpace(allowed: seq<seq<int>>, attempts: seq<nat -> nat>)
    requires NonEmptyChoices(allowed)
    ensures forall g | g in Samples(allowed, attempts) :: InSpace(allowed, g)
  {
  }

  /** Mutants of genes of the search space lie in the search space. */
  lemma MutantsInSpace(allowed: seq<seq<int>>, prob: real, parents: seq<Gene>, attempts: seq<MutationDraw>)
    requires NonEmptyChoices(allowed) && |parents| > 0 && GeneSized(allowed, parents)
    requires forall i | 0 <= i < |parents| :: InSpace(allowed, parents[i])
    ensures forall g | g in Mutants(allowed, prob, parents, attempts) :: InSpace(allowed, g)
  {
    var c := Mutants(allowed, prob, parents, attempts);
    forall i | 0 <= i < |c| ensures InSpace(allowed, c[i]) {
      var d := attempts[i];
      MutateProperties(allowed, prob, parents[d.parent % |parents|], d.uniform, d.pick);
    }
  }

  /** Crossovers of genes of the search space lie in the search space. */
  lemma CrossesInSpace(allowed: seq<seq<int>>, prob: real, parents: seq<Gene>, attempts: seq<CrossoverDraw>)
    requires |parents| >= 2 && GeneSized(allowed, parents)
    requires forall i | 0 <= i < |parents| :: InSpace(allowed, parents[i])
    ensures forall g | g in Crosses(allowed, prob, parents, attempts) :: InSpace(allowed, g)
  {
    var c := Crosses(allowed, prob, parents, attempts);
    forall i | 0 <= i < |c| ensures InSpace(allowed, c[i]) {
      var d := attempts[i];
      var p := SamplePair(|parents|, d.first, d.second);
      CrossProperties(prob, parents[p.0], parents[p.1], d.uniform, allowed);
    }
  }

  /** One measurement per gene, in order. */
  function Map<T>(f: Gene -> T, genes: seq<Gene>): (r: seq<T>)
    ensures |r| == |genes| && forall i | 0 <= i < |genes| :: r[i] == f(genes[i])
  {
    seq(|genes|, i requires 0 <= i < |genes| => f(genes[i]))
  }

  lemma MapAppend<T>(f: Gene -> T, a: seq<Gene>, b: seq<Gene>)
    ensures Map(f, a + b) == Map(f, a) + Map(f, b)
  {
    assert Map(f, a + b) == Map(f, a) + Map(f, b);
  }

  /** Decoder parameters, total parameters, latencies and memories of a list of genes. */
  datatype Measured = Measured(params: seq<nat>, totalParams: seq<nat>, latencies: seq<real>, memories: seq<real>)

  /** `_calculate_constraints(genes)` */
  function Evaluate(ev: Evaluator, genes: seq<Gene>): (m: Measured)
    ensures |m.params| == |genes| && |m.totalParams| == |genes| && |m.latencies| == |genes| && |m.memories| == |genes|
  {
    Measured(Map(ev.params, genes), Map(ev.totalParams, genes), Map(ev.latency, genes), Map(ev.memory, genes))
  }

  function Join(a: Measured, b: Measured): Measured
  {
    Measured(a.params + b.params, a.totalParams + b.totalParams, a.latencies + b.latencies, a.memories + b.memories)
  }

  /** Measuring two lists one after the other is measuring their concatenation. */
  lemma EvaluateAppend(ev: Evaluator, a: seq<Gene>, b: seq<Gene>)
    ensures Evaluate(ev, a + b) == Join(Evaluate(ev, a), Evaluate(ev, b))
  {
    MapAppend(ev.params, a, b);
    MapAppend(ev.totalParams, a, b);
    MapAppend(ev.latency, a, b);
    MapAppend(ev.memory, a, b);
  }

  lemma JoinAssociative(a: Measured, b: Measured, c: Measured)
    ensures Join(Join(a, b), c) == Join(a, Join(b, c))
  {
    assert (a.params + b.params) + c.params == a.params + (b.params + c.params);
    assert (a.totalParams + b.totalParams) + c.totalParams == a.totalParams + (b.totalParams + c.totalParams);
    assert (a.latencies + b.latencies) + c.latencies == a.latencies + (b.latencies + c.latencies);
    assert (a.memories + b.memories) + c.memories == a.memories + (b.memories + c.memories);
  }

  /** Appending the measurements of one batch after those of the genes done so far measures the
      genes done so far followed by the batch. */
  lemma MeasureMore(ev: Evaluator, measured: Measured, done: seq<Gene>, current: seq<Gene>)
    ensures Join(Join(measured, Evaluate(ev, done)), Evaluate(ev, current)) == Join(measured, Evaluate(ev, done + current))
  {
    EvaluateAppend(ev, done, current);
    JoinAssociative(measured, Evaluate(ev, done), Evaluate(ev, current));
  }

  /** A row of the point matrix handed to the frontier search. */
  datatype Point = Point(flippedParams: int, latency: real, memory: real)

  /** `max(all_params) - all_params[i]` next to the latency and memory of gene `i`. */
  function Points(m: Measured): (ps: seq<Point>)
    requires |m.params| > 0 && |m.latencies| == |m.params| && |m.memories| == |m.params|
    ensures |ps| == |m.params|
  {
    var top := Weights.Max(m.params);
    seq(|m.params|, i requires 0 <= i < |m.params| => Point(top - m.params[i], m.latencies[i], m.memories[i]))
  }

  /** The flipped axis is never negative, is zero for the largest decoder, and reverses the order
      of decoder sizes, so that every axis of the frontier search is one to minimize. */
  lemma FlippedAxis(m: Measured, i: nat, j: nat)
    requires |m.params| > 0 && |m.latencies| == |m.params| && |m.memories| == |m.params|
    requires i < |m.params| && j < |m.params|
    ensures Points(m)[i].flippedParams >= 0
    ensures Points(m)[i].flippedParams == 0 <==> m.params[i] == Weights.Max(m.params)
    ensures m.params[i] <= m.params[j] <==> Points(m)[i].flippedParams >= Points(m)[j].flippedParams
  {
  }

  /** The frontier: five parallel lists. */
  datatype Front = Front(population: seq<Gene>, params: seq<nat>, totalParams: seq<nat>, latencies: seq<real>, memories: seq<real>)

  function EmptyFront(): Front
  {
    Front([], [], [], [], [])
  }

  predicate IndicesIn(inds: seq<nat>, n: nat)
  {
    forall j | 0 <= j < |inds| :: inds[j] < n
  }

  /** `[xs[i] for i in inds]` */
  function Project<T>(xs: seq<T>, inds: seq<nat>): seq<T>
    requires IndicesIn(inds, |xs|)
  {
    seq(|inds|, j requires 0 <= j < |inds| => xs[inds[j]])
  }

  /** `_update_pareto_front`: the flipped points go to the frontier search `find`, and every history
      list is projected through the indices it returns. The frontier is reset first, so it stays
      empty when any step fails. */
  function ParetoUpdate(find: seq<Point> -> seq<nat>, population: seq<Gene>, m: Measured): (r: Result<Front, SearchError>)
    ensures r == Err(EmptyHistory) <==> |m.params| == 0
    ensures r.Ok? ==>
              0 < |m.params| == |population| == |m.totalParams| == |m.latencies| == |m.memories|
  {
    var n := |m.params|;
    if n == 0 then Err(EmptyHistory)
    else if |m.latencies| != n || |m.memories| != n then Err(HistoryMismatch)
    else
      var inds := find(Points(m));
      if |population| != n || |m.totalParams| != n then Err(HistoryMismatch)
      else if !IndicesIn(inds, n) then Err(FrontierIndexOutOfRange)
      else Ok(Front(Project(population, inds), Project(m.params, inds), Project(m.totalParams, inds),
                    Project(m.latencies, inds), Project(m.memories, inds)))
  }

  /** A successful frontier update yields five lists of one length whose entries at each position
      all describe the same visited gene, so every frontier gene is a visited gene. */
  lemma FrontParallel(find: seq<Point> -> seq<nat>, population: seq<Gene>, m: Measured)
    requires ParetoUpdate(find, population, m).Ok?
    ensures var f := ParetoUpdate(find, population, m).value;
            && |f.params| == |f.population| && |f.totalParams| == |f.population|
            && |f.latencies| == |f.population| && |f.memories| == |f.population|
            && |f.population| == |find(Points(m))|
            && forall j | 0 <= j < |f.population| :: exists h | 0 <= h < |population| ::
                 && f.population[j] == population[h] && f.params[j] == m.params[h]
                 && f.totalParams[j] == m.totalParams[h] && f.latencies[j] == m.latencies[h]
                 && f.memories[j] == m.memories[h]
  {
    var f := ParetoUpdate(find, population, m).value;
    var inds := find(Points(m));
    forall j | 0 <= j < |f.population|
      ensures exists h | 0 <= h < |population| ::
                && f.population[j] == population[h] && f.params[j] == m.params[h]
                && f.totalParams[j] == m.totalParams[h] && f.latencies[j] == m.latencies[h]
                && f.memories[j] == m.memories[h]
    {
      var h := inds[j];
      assert f.population[j] == population[h];
    }
  }

  /** When the histories are the measurements of the visited genes, the frontier update cannot trip
      over lists of different lengths, and the frontier holds only visited genes. */
  lemma FrontOfMeasured(find: seq<Point> -> seq<nat>, ev: Evaluator, population: seq<Gene>)
    ensures var u := ParetoUpdate(find, population, Evaluate(ev, population));
            && u != Err(HistoryMismatch)
            && (u.Ok? ==> forall j | 0 <= j < |u.value.population| :: u.value.population[j] in population)
  {
    var u := ParetoUpdate(find, population, Evaluate(ev, population));
    if u.Ok? {
      FrontParallel(find, population, Evaluate(ev, population));
    }
  }

  /** `s[a:b]` for non-negative bounds: Python clamps both ends to the length. */
  function Slice<T>(s: seq<T>, a: nat, b: nat): seq<T>
  {
    var lo := if a < |s| then a else |s|;
    var hi := if b < |s| then b else |s|;
    if lo <= hi then s[lo..hi] else []
  }

  /** Consecutive slices join into one. */
  lemma SliceJoin<T>(s: seq<T>, a: nat, b: nat, c: nat)
    requires a <= b <= c
    ensures Slice(s, a, b) + Slice(s, b, c) == Slice(s, a, c)
  {
    var lo := if a < |s| then a else |s|;
    var mid := if b < |s| then b else |s|;
    var hi := if c < |s| then c else |s|;
    assert lo <= mid <= hi;
    assert Slice(s, a, b) == s[lo..mid] && Slice(s, b, c) == s[mid..hi] && Slice(s, a, c) == s[lo..hi];
    assert s[lo..mid] + s[mid..hi] == s[lo..hi];
  }

  /** The starts of the batches of `semi_brute_force`: `range(start, n, batch)`. */
  function BatchStarts(start: nat, n: nat, batch: nat): (starts: seq<nat>)
    requires batch > 0
    ensures forall j | 0 <= j < |starts| :: start <= starts[j] < n
    ensures |starts| > 0 <==> start < n
    decreases n - start
  {
    if start >= n then [] else [start] + BatchStarts(start + batch, n, batch)
  }

}
