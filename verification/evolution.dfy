/** The evolutionary search over transformer configurations: an object holding the gene counter,
    every visited gene with its measurements, and the current Pareto frontier, whose methods sample,
    measure, select, mutate and cross genes generation after generation. Random draws are inputs. */
module EvolutionSearch {
  import opened Wrappers
  import opened GeneticOps
  import Weights

  /** `population_size`, `parent_size`, `mutation_size` and `crossover_size`. */
  datatype Sizes = Sizes(population: nat, parent: nat, mutation: nat, crossover: nat)

  /** What construction checks: the size assertion, then the profiling of the largest and the
      smallest gene, which reads the last and the first choice of every position. */
  function Configure(sizes: Sizes, allowed: seq<seq<int>>): (r: Result<(), SearchError>)
    ensures r.Ok? <==> sizes.population == sizes.parent + sizes.mutation + sizes.crossover && NonEmptyChoices(allowed)
    ensures r == Err(SizeMismatch) <==> sizes.population != sizes.parent + sizes.mutation + sizes.crossover
  {
    if sizes.population != sizes.parent + sizes.mutation + sizes.crossover then Err(SizeMismatch)
    else if exists k | 0 <= k < |allowed| :: |allowed[k]| == 0 then Err(EmptyChoices)
    else Ok(())
  }

  /** How often each frontier gene has been in a population; a `Counter` answers 0 for a gene it
      has never seen. */
  function FrontCounts(counts: multiset<Gene>, population: seq<Gene>): (r: seq<nat>)
    ensures |r| == |population| && forall i | 0 <= i < |population| :: r[i] == counts[population[i]]
  {
    seq(|population|, i requires 0 <= i < |population| => counts[population[i]])
  }

  /** When every frontier gene has been counted, the weights exist exactly when the frontier is not
      empty: the division by a zero range cannot happen. */
  lemma CountedFrontWeights(counts: multiset<Gene>, population: seq<Gene>)
    requires forall i | 0 <= i < |population| :: counts[population[i]] > 0
    ensures var w := Weights.WeightedCount(FrontCounts(counts, population));
            && (w.Ok? <==> |population| > 0)
            && (w.Err? ==> w.error == Weights.EmptyFrontier)
  {
    if |population| > 0 {
      Weights.CountedFrontierHasWeights(FrontCounts(counts, population));
    }
  }

  function NoHistory(): Measured
  {
    Measured([], [], [], [])
  }

  class Evolution {
    const sizes: Sizes
    const mutationProb: real
    const crossoverProb: real
    const nIter: nat
    const limits: Limits
    /** `allowed_genes`: the choices of every position. */
    const allowed: seq<seq<int>>
    const evaluator: Evaluator
    /** `find_pareto_points`, which is not part of this model. */
    const findPareto: seq<Point> -> seq<nat>

    /** `counts`: how many times each gene has been in a population. */
    var counts: multiset<Gene>
    /** `all_population` */
    var allPopulation: seq<Gene>
    /** `all_params`, `all_total_params`, `all_latencies` and `all_memories`. */
    var history: Measured
    /** `pareto` */
    var pareto: Front

    ghost predicate Valid()
    {
      Configure(sizes, allowed).Ok?
    }

    /** A gene of the search space that satisfies the constraints. */
    ghost predicate Fit(g: Gene)
    {
      InSpace(allowed, g) && CheckConstraints(evaluator, limits, g).passed
    }

    /** Every visited gene is fit and has been counted. */
    ghost predicate Visited()
      reads this`allPopulation, this`counts
    {
      forall g | g in allPopulation :: Fit(g) && counts[g] > 0
    }

    constructor(sizes: Sizes, mutationProb: real, crossoverProb: real, nIter: nat, limits: Limits,
                allowed: seq<seq<int>>, evaluator: Evaluator, findPareto: seq<Point> -> seq<nat>)
      requires Configure(sizes, allowed).Ok?
      ensures Valid()
      ensures this.sizes == sizes && this.mutationProb == mutationProb && this.crossoverProb == crossoverProb
      ensures this.nIter == nIter && this.limits == limits && this.allowed == allowed
      ensures this.evaluator == evaluator && this.findPareto == findPareto
      ensures counts == multiset{} && allPopulation == [] && history == NoHistory() && pareto == EmptyFront()
    {
      this.sizes := sizes;
      this.mutationProb := mutationProb;
      this.crossoverProb := crossoverProb;
      this.nIter := nIter;
      this.limits := limits;
      this.allowed := allowed;
      this.evaluator := evaluator;
      this.findPareto := findPareto;
      counts := multiset{};
      allPopulation := [];
      history := NoHistory();
      pareto := EmptyFront();
    }

    /** `_is_seen_before` */
    function IsSeenBefore(g: Gene): (r: bool)
      reads this
      ensures r <==> counts[g] > 0
    {
      g in counts
    }

    /** `_update_gene_count` */
    method UpdateGeneCount(g: Gene)
      modifies this`counts
      ensures counts == old(counts) + multiset{g}
      ensures counts[g] == old(counts)[g] + 1 && forall h | h != g :: counts[h] == old(counts)[h]
    {
      counts := counts + multiset{g};
    }

    /** `_update_population_count` */
    method UpdatePopulationCount(population: seq<Gene>)
      modifies this`counts
      ensures counts == old(counts) + multiset(population)
      ensures forall g | g in population :: counts[g] > old(counts)[g]
    {
      for i := 0 to |population|
        invariant counts == old(counts) + multiset(population[..i])
      {
        UpdateGeneCount(population[i]);
        assert population[..i + 1] == population[..i] + [population[i]];
      }
      assert population[..|population|] == population;
    }

    /** The inner loop of `sample_random_population`: one draw per position. */
    method SampleGene(pick: nat -> nat) returns (g: Gene)
      requires Valid()
      ensures g == Sample(allowed, pick)
    {
      g := [];
      for k := 0 to |allowed|
        invariant g == Sample(allowed, pick)[..k]
      {
        g := g + [Pick(allowed[k], pick(k))];
      }
    }

    /** `_mutation` */
    method Mutation(gene: Gene, uniform: nat -> real, pick: nat -> nat) returns (m: Gene)
      requires Valid() && |gene| == |allowed|
      ensures m == Mutate(allowed, mutationProb, gene, uniform, pick)
    {
      m := [];
      for k := 0 to |allowed|
        invariant m == Mutate(allowed, mutationProb, gene, uniform, pick)[..k]
      {
        if uniform(k) < mutationProb {
          m := m + [Pick(allowed[k], pick(k))];
        } else {
          m := m + [gene[k]];
        }
      }
    }

    /** `_crossover` */
    method Crossover(first: Gene, second: Gene, uniform: nat -> real) returns (c: Gene)
      requires |first| == |allowed| && |second| == |allowed|
      ensures c == Cross(crossoverProb, first, second, uniform)
    {
      c := [];
      for k := 0 to |allowed|
        invariant c == Cross(crossoverProb, first, second, uniform)[..k]
      {
        if uniform(k) < crossoverProb {
          c := c + [first[k]];
        } else {
          c := c + [second[k]];
        }
      }
    }

    /** `_calculate_constraints` */
    method CalculateConstraints(genes: seq<Gene>) returns (m: Measured)
      ensures m == Evaluate(evaluator, genes)
    {
      m := NoHistory();
      for i := 0 to |genes|
        invariant m == Evaluate(evaluator, genes[..i])
      {
        var g := genes[i];
        EvaluateAppend(evaluator, genes[..i], [g]);
        assert genes[..i + 1] == genes[..i] + [g];
        m := Measured(m.params + [evaluator.params(g)], m.totalParams + [evaluator.totalParams(g)],
                      m.latencies + [evaluator.latency(g)], m.memories + [evaluator.memory(g)]);
      }
      assert genes[..|genes|] == genes;
    }

    /** `_update_pareto_front` */
    method UpdateParetoFront() returns (r: Result<(), SearchError>)
      modifies this`pareto
      ensures var u := ParetoUpdate(findPareto, allPopulation, history);
              && (u.Ok? ==> r.Ok? && pareto == u.value)
              && (u.Err? ==> r == Err(u.error) && pareto == EmptyFront())
    {
      pareto := EmptyFront();
      var n := |history.params|;
      if n == 0 {
        return Err(EmptyHistory);
      }
      if |history.latencies| != n || |history.memories| != n {
        return Err(HistoryMismatch);
      }
      var inds := findPareto(Points(history));
      if |allPopulation| != n || |history.totalParams| != n {
        return Err(HistoryMismatch);
      }
      if !IndicesIn(inds, n) {
        return Err(FrontierIndexOutOfRange);
      }
      pareto := Front(Project(allPopulation, inds), Project(history.params, inds), Project(history.totalParams, inds),
                      Project(history.latencies, inds), Project(history.memories, inds));
      r := Ok(());
    }

    /** `_calculate_weighted_count` */
    method CalculateWeightedCount() returns (r: Result<seq<real>, Weights.WeightError>)
      ensures r == Weights.WeightedCount(FrontCounts(counts, pareto.population))
    {
      var frontCounts: seq<nat> := [];
      for i := 0 to |pareto.population|
        invariant frontCounts == FrontCounts(counts, pareto.population)[..i]
      {
        frontCounts := frontCounts + [counts[pareto.population[i]]];
      }
      assert frontCounts == FrontCounts(counts, pareto.population);
      r := Weights.WeightedCount(frontCounts);
    }

    /** `sample_random_population` */
    method SampleRandomPopulation(n: nat, attempts: seq<nat -> nat>) returns (r: Result<seq<Gene>, SearchError>)
      requires Valid()
      ensures r == Drawn(FirstAccepted(Samples(allowed, attempts), Passes(evaluator, limits), n))
    {
      ghost var cands, ok := Samples(allowed, attempts), Passes(evaluator, limits);
      var population: seq<Gene> := [];
      var j := 0;
      RetryStart(cands, ok, n);
      while |population| < n
        invariant Retrying(cands, ok, n, j, population)
        decreases |attempts| - j
      {
        if j == |attempts| {
          RetryExhausted(cands, ok, n, population);
          return Err(DrawsExhausted);
        }
        var g := SampleGene(attempts[j]);
        assert cands[j] == g && ok(g) == CheckConstraints(evaluator, limits, g).passed;
        RetryStep(cands, ok, n, j, population);
        if CheckConstraints(evaluator, limits, g).passed {
          population := population + [g];
        }
        j := j + 1;
      }
      RetryDone(cands, ok, n, j, population);
      r := Ok(population);
    }

    /** The mutation loop of `search`. With no parent to draw from, `random.choices` raises as soon
        as a mutation is needed. */
    method MutationPhase(parents: seq<Gene>, attempts: seq<MutationDraw>) returns (r: Result<seq<Gene>, SearchError>)
      requires Valid() && GeneSized(allowed, parents)
      ensures sizes.mutation == 0 ==> r == Ok([])
      ensures sizes.mutation > 0 && |parents| == 0 ==> r == Err(NoParents)
      ensures sizes.mutation > 0 && |parents| > 0 ==>
                r == Drawn(FirstAccepted(Mutants(allowed, mutationProb, parents, attempts), PassesUnseen(evaluator, limits, counts), sizes.mutation))
    {
      if sizes.mutation == 0 {
        return Ok([]);
      }
      if |parents| == 0 {
        return Err(NoParents);
      }
      ghost var cands, ok := Mutants(allowed, mutationProb, parents, attempts), PassesUnseen(evaluator, limits, counts);
      var mutated: seq<Gene> := [];
      var j := 0;
      RetryStart(cands, ok, sizes.mutation);
      while |mutated| < sizes.mutation
        invariant Retrying(cands, ok, sizes.mutation, j, mutated)
        decreases |attempts| - j
      {
        if j == |attempts| {
          RetryExhausted(cands, ok, sizes.mutation, mutated);
          return Err(DrawsExhausted);
        }
        var d := attempts[j];
        var g := Mutation(parents[d.parent % |parents|], d.uniform, d.pick);
        assert cands[j] == g && ok(g) == (CheckConstraints(evaluator, limits, g).passed && !IsSeenBefore(g));
        RetryStep(cands, ok, sizes.mutation, j, mutated);
        if CheckConstraints(evaluator, limits, g).passed && !IsSeenBefore(g) {
          mutated := mutated + [g];
        }
        j := j + 1;
      }
      RetryDone(cands, ok, sizes.mutation, j, mutated);
      r := Ok(mutated);
    }

    /** The crossover loop of `search`. With fewer than two parents, `random.sample` raises as soon
        as a crossover is needed. */
    method CrossoverPhase(parents: seq<Gene>, attempts: seq<CrossoverDraw>) returns (r: Result<seq<Gene>, SearchError>)
      requires GeneSized(allowed, parents)
      ensures sizes.crossover == 0 ==> r == Ok([])
      ensures sizes.crossover > 0 && |parents| < 2 ==> r == Err(TooFewParents)
      ensures sizes.crossover > 0 && |parents| >= 2 ==>
                r == Drawn(FirstAccepted(Crosses(allowed, crossoverProb, parents, attempts), PassesUnseen(evaluator, limits, counts), sizes.crossover))
    {
      if sizes.crossover == 0 {
        return Ok([]);
      }
      if |parents| < 2 {
        return Err(TooFewParents);
      }
      ghost var cands, ok := Crosses(allowed, crossoverProb, parents, attempts), PassesUnseen(evaluator, limits, counts);
      var crossed: seq<Gene> := [];
      var j := 0;
      RetryStart(cands, ok, sizes.crossover);
      while |crossed| < sizes.crossover
        invariant Retrying(cands, ok, sizes.crossover, j, crossed)
        decreases |attempts| - j
      {
        if j == |attempts| {
          RetryExhausted(cands, ok, sizes.crossover, crossed);
          return Err(DrawsExhausted);
        }
        var d := attempts[j];
        var pair := SamplePair(|parents|, d.first, d.second);
        var g := Crossover(parents[pair.0], parents[pair.1], d.uniform);
        assert cands[j] == g && ok(g) == (CheckConstraints(evaluator, limits, g).passed && !IsSeenBefore(g));
        RetryStep(cands, ok, sizes.crossover, j, crossed);
        if CheckConstraints(evaluator, limits, g).passed && !IsSeenBefore(g) {
          crossed := crossed + [g];
        }
        j := j + 1;
      }
      RetryDone(cands, ok, sizes.crossover, j, crossed);
      r := Ok(crossed);
    }

    /** The frontier update, the weights and the parent draw of one generation. Because every visited
        gene has been counted, the weights can fail only on an empty frontier. */
    method SelectParents(select: nat -> nat) returns (r: Result<seq<Gene>, SearchError>)
      requires Visited() && history == Evaluate(evaluator, allPopulation)
      modifies this`pareto
      ensures var u := ParetoUpdate(findPareto, allPopulation, history);
              pareto == (if u.Ok? then u.value else EmptyFront())
      ensures r.Ok? ==> ParetoUpdate(findPareto, allPopulation, history) == Ok(pareto) && |pareto.population| > 0
      ensures r.Ok? ==> |r.value| == sizes.parent && forall j | 0 <= j < |r.value| ::
                          r.value[j] == pareto.population[select(j) % |pareto.population|] && r.value[j] in allPopulation
      ensures r != Err(HistoryMismatch) && r != Err(NoFrontierWeights(Weights.ZeroRange))
    {
      var u := UpdateParetoFront();
      FrontOfMeasured(findPareto, evaluator, allPopulation);
      if u.Err? {
        return Err(u.error);
      }
      r := DrawParents(select);
    }

    /** The weights of the frontier and the parent draw. Every frontier gene has been visited, so
        the weights fail only when the frontier is empty. */
    method DrawParents(select: nat -> nat) returns (r: Result<seq<Gene>, SearchError>)
      requires Visited() && forall g | g in pareto.population :: g in allPopulation
      ensures r.Err? ==> r == Err(NoFrontierWeights(Weights.EmptyFrontier)) && |pareto.population| == 0
      ensures r.Ok? ==> |pareto.population| > 0
      ensures r.Ok? ==> |r.value| == sizes.parent && forall j | 0 <= j < |r.value| ::
                          r.value[j] == pareto.population[select(j) % |pareto.population|] && r.value[j] in allPopulation
    {
      FrontierCounted();
      CountedFrontWeights(counts, pareto.population);
      var w := CalculateWeightedCount();
      if w.Err? {
        return Err(NoFrontierWeights(w.error));
      }
      var front := pareto.population;
      r := Ok(seq(sizes.parent, j requires 0 <= j < sizes.parent => front[select(j) % |front|]));
    }

    /** Frontier genes are visited genes, so they have all been counted. */
    lemma FrontierCounted()
      requires Visited() && forall j | 0 <= j < |pareto.population| :: pareto.population[j] in allPopulation
      ensures forall j | 0 <= j < |pareto.population| :: counts[pareto.population[j]] > 0
    {
    }

    /** `idx` of the `i`-th generation: the first generation measures its whole population, later
        ones only the genes after the parents. */
    function Start(i: nat): (idx: nat)
      ensures Valid() ==> idx <= sizes.population && sizes.population - idx >= sizes.mutation + sizes.crossover
      ensures i == 0 ==> idx == 0
    {
      if i == 0 then 0 else sizes.parent
    }

    /** The measurement step of a generation: the genes from `idx` on are measured and appended to
        the histories, which then measure every visited gene. */
    method MeasureGeneration(i: nat, population: seq<Gene>)
      requires |population| >= Start(i)
      requires |history.params| <= |allPopulation| && history == Evaluate(evaluator, allPopulation[..|history.params|])
      requires allPopulation[|history.params|..] == population[Start(i)..]
      modifies this`history
      ensures history == Evaluate(evaluator, allPopulation)
    {
      var idx := Start(i);
      var unseen := CalculateConstraints(population[idx..]);
      ghost var h := |history.params|;
      EvaluateAppend(evaluator, allPopulation[..h], allPopulation[h..]);
      assert allPopulation[..h] + allPopulation[h..] == allPopulation;
      history := Join(history, unseen);
    }

    /** The children a generation keeps: the first `mutation` accepted mutants of the parents, then
        the first `crossover` accepted crosses, a candidate being accepted when it satisfies the
        constraints and is not counted in `counted`. */
    ghost function Children(parents: seq<Gene>, draws: GenerationDraws, counted: multiset<Gene>): Result<seq<Gene>, SearchError>
      requires Valid() && GeneSized(allowed, parents)
    {
      var mutated :-
        if sizes.mutation == 0 then Ok([])
        else if |parents| == 0 then Err(NoParents)
        else Drawn(FirstAccepted(Mutants(allowed, mutationProb, parents, draws.mutations), PassesUnseen(evaluator, limits, counted), sizes.mutation));
      var crossed :-
        if sizes.crossover == 0 then Ok([])
        else if |parents| < 2 then Err(TooFewParents)
        else Drawn(FirstAccepted(Crosses(allowed, crossoverProb, parents, draws.crossovers), PassesUnseen(evaluator, limits, counted), sizes.crossover));
      Ok(mutated + crossed)
    }

    /** The mutation and crossover loops of a generation: every child is fit and was never counted. */
    method Breed(parents: seq<Gene>, draws: GenerationDraws) returns (r: Result<seq<Gene>, SearchError>)
      requires Valid() && forall j | 0 <= j < |parents| :: Fit(parents[j])
      ensures GeneSized(allowed, parents) && r == Children(parents, draws, counts)
      ensures r.Err? ==> r.error in {NoParents, TooFewParents, DrawsExhausted}
      ensures r.Ok? ==> |r.value| == sizes.mutation + sizes.crossover && forall g | g in r.value :: Fit(g) && counts[g] == 0
    {
      var mutated := MutationPhase(parents, draws.mutations);
      if mutated.Err? {
        return Err(mutated.error);
      }
      if sizes.mutation > 0 {
        ghost var cands := Mutants(allowed, mutationProb, parents, draws.mutations);
        MutantsInSpace(allowed, mutationProb, parents, draws.mutations);
        FirstAcceptedSound(cands, PassesUnseen(evaluator, limits, counts), sizes.mutation);
      }
      var crossed := CrossoverPhase(parents, draws.crossovers);
      if crossed.Err? {
        return Err(crossed.error);
      }
      if sizes.crossover > 0 {
        ghost var cands := Crosses(allowed, crossoverProb, parents, draws.crossovers);
        CrossesInSpace(allowed, crossoverProb, parents, draws.crossovers);
        FirstAcceptedSound(cands, PassesUnseen(evaluator, limits, counts), sizes.crossover);
      }
      r := Ok(mutated.value + crossed.value);
    }

    /** The end of a generation: the new population is counted and its children join the visited
        genes, which all stay fit and counted. */
    method Record(parents: seq<Gene>, children: seq<Gene>) returns (next: seq<Gene>)
      requires Visited()
      requires forall g | g in parents :: g in allPopulation
      requires forall g | g in children :: Fit(g)
      modifies this`counts, this`allPopulation
      ensures next == parents + children
      ensures counts == old(counts) + multiset(next) && allPopulation == old(allPopulation) + children
      ensures Visited() && forall g | g in next :: g in allPopulation
    {
      next := parents + children;
      UpdatePopulationCount(next);
      allPopulation := allPopulation + children;
    }

    /** What a generation builds: `parent` parents drawn from the frontier, then the children of
        those parents under `draws` (mutants first, then crosses), which are fit and were never
        counted before; the children join the visited genes `visited` and the whole new population
        is added to the counts `counted`. */
    ghost predicate Bred(next: seq<Gene>, draws: GenerationDraws, visited: seq<Gene>, counted: multiset<Gene>)
      reads this`allPopulation, this`counts, this`pareto
    {
      && |next| == sizes.population && sizes.parent <= |next|
      && (forall j | 0 <= j < sizes.parent :: next[j] in pareto.population)
      && Valid() && GeneSized(allowed, next[..sizes.parent])
      && Children(next[..sizes.parent], draws, counted) == Ok(next[sizes.parent..])
      && (forall g | g in next[sizes.parent..] :: Fit(g) && counted[g] == 0)
      && allPopulation == visited + next[sizes.parent..]
      && counts == counted + multiset(next)
      && (forall g | g in next :: g in allPopulation)
    }

    /** The part of a generation after the measurements: the frontier and the parents, then the
        children, then the counts and the visited genes. */
    method Reproduce(draws: GenerationDraws) returns (r: Result<seq<Gene>, SearchError>)
      requires Valid() && Visited() && history == Evaluate(evaluator, allPopulation)
      modifies this`counts, this`allPopulation, this`pareto
      ensures Visited()
      ensures r != Err(HistoryMismatch) && r != Err(NoFrontierWeights(Weights.ZeroRange))
      ensures r.Err? ==> counts == old(counts) && allPopulation == old(allPopulation)
      ensures var u := ParetoUpdate(findPareto, old(allPopulation), history);
              pareto == (if u.Ok? then u.value else EmptyFront())
      ensures r.Ok? ==> ParetoUpdate(findPareto, old(allPopulation), history) == Ok(pareto)
      ensures r.Ok? ==> Bred(r.value, draws, old(allPopulation), old(counts))
      ensures r.Ok? ==> |pareto.population| > 0 && forall j | 0 <= j < sizes.parent ::
                          r.value[j] == pareto.population[draws.select(j) % |pareto.population|]
    {
      var selected := SelectParents(draws.select);
      if selected.Err? {
        return Err(selected.error);
      }
      r := Offspring(selected.value, draws);
    }

    /** The children of the drawn parents, then the counts and the visited genes. */
    method Offspring(parents: seq<Gene>, draws: GenerationDraws) returns (r: Result<seq<Gene>, SearchError>)
      requires Valid() && Visited() && |parents| == sizes.parent
      requires forall j | 0 <= j < |parents| :: parents[j] in pareto.population && parents[j] in allPopulation
      modifies this`counts, this`allPopulation
      ensures Visited()
      ensures r.Err? ==> r.error in {NoParents, TooFewParents, DrawsExhausted}
      ensures r.Err? ==> counts == old(counts) && allPopulation == old(allPopulation)
      ensures r.Ok? ==> Bred(r.value, draws, old(allPopulation), old(counts))
      ensures r.Ok? ==> r.value[..sizes.parent] == parents
    {
      var children := Breed(parents, draws);
      if children.Err? {
        return Err(children.error);
      }
      var next := Record(parents, children.value);
      assert next[..sizes.parent] == parents;
      assert next[sizes.parent..] == children.value;
      r := Ok(next);
    }

    /** One iteration of the loop of `search`. */
    method Generation(i: nat, population: seq<Gene>, draws: GenerationDraws) returns (r: Result<seq<Gene>, SearchError>)
      requires Valid() && Visited()
      requires |population| == sizes.population && forall g | g in population :: g in allPopulation
      requires |history.params| <= |allPopulation| && history == Evaluate(evaluator, allPopulation[..|history.params|])
      requires allPopulation[|history.params|..] == population[Start(i)..]
      modifies this`counts, this`allPopulation, this`history, this`pareto
      ensures history == Evaluate(evaluator, old(allPopulation))
      ensures Visited()
      ensures r != Err(HistoryMismatch) && r != Err(NoFrontierWeights(Weights.ZeroRange))
      ensures r.Err? ==> counts == old(counts) && allPopulation == old(allPopulation)
      ensures var u := ParetoUpdate(findPareto, old(allPopulation), history);
              pareto == (if u.Ok? then u.value else EmptyFront())
      ensures r.Ok? ==> ParetoUpdate(findPareto, old(allPopulation), history) == Ok(pareto)
      ensures r.Ok? ==> Bred(r.value, draws, old(allPopulation), old(counts))
      ensures r.Ok? ==> |pareto.population| > 0 && forall j | 0 <= j < sizes.parent ::
                          r.value[j] == pareto.population[draws.select(j) % |pareto.population|]
    {
      MeasureGeneration(i, population);
      r := Reproduce(draws);
    }

    /** `search`: the sampled initial population, then `n_iter` generations. The result is the
        population the last generation builds. */
    method Search(attempts: seq<nat -> nat>, draws: nat -> GenerationDraws) returns (r: Result<seq<Gene>, SearchError>)
      requires Valid() && history == NoHistory()
      modifies this`counts, this`allPopulation, this`history, this`pareto
      ensures r != Err(HistoryMismatch) && r != Err(NoFrontierWeights(Weights.ZeroRange))
      ensures r.Ok? ==>
                && |r.value| == sizes.population
                && Visited()
                && (forall g | g in r.value :: g in allPopulation)
                && |history.params| <= |allPopulation|
                && history == Evaluate(evaluator, allPopulation[..|history.params|])
    {
      var sampled := SampleRandomPopulation(sizes.population, attempts);
      if sampled.Err? {
        return sampled;
      }
      var population := sampled.value;
      SamplesInSpace(allowed, attempts);
      FirstAcceptedSound(Samples(allowed, attempts), Passes(evaluator, limits), sizes.population);
      allPopulation := population;
      UpdatePopulationCount(population);
      for i := 0 to nIter
        invariant Visited() && |population| == sizes.population
        invariant forall g | g in population :: g in allPopulation
        invariant |history.params| <= |allPopulation|
        invariant history == Evaluate(evaluator, allPopulation[..|history.params|])
        invariant allPopulation[|history.params|..] == population[Start(i)..]
      {
        ghost var before := allPopulation;
        var next := Generation(i, population, draws(i));
        if next.Err? {
          return next;
        }
        population := next.value;
        assert allPopulation[..|history.params|] == before;
      }
      r := Ok(population);
    }

    /** The pool of `semi_brute_force`: the first `n` genes of a previously saved population when
        there is one, and a fresh sample of `n` genes otherwise. */
    function BruteForcePool(n: nat, stored: Option<seq<Gene>>, attempts: seq<nat -> nat>): (r: Result<seq<Gene>, SearchError>)
      requires Valid()
      ensures stored.Some? ==> r.Ok? && r.value <= stored.value && |r.value| == (if n < |stored.value| then n else |stored.value|)
      ensures stored.None? ==> (r.Ok? ==> |r.value| == n && forall g | g in r.value :: Fit(g)) && (r.Err? ==> r == Err(DrawsExhausted))
    {
      if stored.Some? then Ok(Slice(stored.value, 0, n))
      else
        SamplesInSpace(allowed, attempts);
        FirstAcceptedSound(Samples(allowed, attempts), Passes(evaluator, limits), n);
        Drawn(FirstAccepted(Samples(allowed, attempts), Passes(evaluator, limits), n))
    }

    /** The start of `semi_brute_force`: the saved population cut to `n` genes, or a fresh sample. */
    method LoadPool(n: nat, stored: Option<seq<Gene>>, attempts: seq<nat -> nat>) returns (r: Result<seq<Gene>, SearchError>)
      requires Valid()
      ensures r == BruteForcePool(n, stored, attempts)
      ensures r.Ok? ==> |r.value| <= n
    {
      if stored.Some? {
        return Ok(Slice(stored.value, 0, n));
      }
      r := SampleRandomPopulation(n, attempts);
      FirstAcceptedSound(Samples(allowed, attempts), Passes(evaluator, limits), n);
    }

    /** One batch of `semi_brute_force`: the batch joins the visited genes after those `done` so
        far, its measurements join the histories, and the frontier is recomputed over everything
        visited. */
    method BruteForceBatch(ghost base: seq<Gene>, ghost measured: Measured, ghost done: seq<Gene>, current: seq<Gene>)
      returns (r: Result<(), SearchError>)
      requires allPopulation == base + done && history == Join(measured, Evaluate(evaluator, done))
      modifies this`allPopulation, this`history, this`pareto
      ensures allPopulation == base + (done + current)
      ensures history == Join(measured, Evaluate(evaluator, done + current))
      ensures var u := ParetoUpdate(findPareto, allPopulation, history);
              && pareto == (if u.Ok? then u.value else EmptyFront())
              && (r.Ok? <==> u.Ok?) && (u.Err? ==> r == Err(u.error))
    {
      var m := CalculateConstraints(current);
      MeasureMore(evaluator, measured, done, current);
      allPopulation := allPopulation + current;
      assert allPopulation == base + (done + current);
      history := Join(history, m);
      r := UpdateParetoFront();
    }

    /** The batch loop of `semi_brute_force`: `range(0, n, batch)` visits every gene of a pool of at
        most `n` genes, in order. */
    method RunBatches(population: seq<Gene>, n: nat, batch: nat) returns (r: Result<(), SearchError>)
      requires batch > 0 && |population| <= n
      modifies this`allPopulation, this`history, this`pareto
      ensures r.Ok? ==>
                && allPopulation == old(allPopulation) + population
                && history == Join(old(history), Evaluate(evaluator, population))
                && (n > 0 ==> ParetoUpdate(findPareto, allPopulation, history) == Ok(pareto))
      ensures r.Err? ==> pareto == EmptyFront() && ParetoUpdate(findPareto, allPopulation, history) == Err(r.error)
    {
      var idx := 0;
      ghost var base, measured := allPopulation, history;
      ghost var done: seq<Gene> := [];
      assert Evaluate(evaluator, []) == NoHistory();
      assert allPopulation == base + done && history == Join(measured, Evaluate(evaluator, done));
      while idx < n
        invariant done == Slice(population, 0, idx)
        invariant allPopulation == base + done
        invariant history == Join(measured, Evaluate(evaluator, done))
        invariant idx > 0 ==> ParetoUpdate(findPareto, allPopulation, history) == Ok(pareto)
        decreases n - idx
      {
        var current := Slice(population, idx, idx + batch);
        SliceJoin(population, 0, idx, idx + batch);
        var u := BruteForceBatch(base, measured, done, current);
        done := done + current;
        if u.Err? {
          return u;
        }
        // `plot_search_state(iteration=idx)` draws the frontier; plotting is not part of this model.
        idx := idx + batch;
      }
      assert done == population[0..|population|] == population;
      r := Ok(());
    }

    /** `semi_brute_force` with the plotting call made under its parameter's own name: the pool is
        measured batch by batch, the frontier updated after each batch, and in the end every gene
        of the pool has been visited and measured, in order. */
    method SemiBruteForce(n: nat, batch: nat, stored: Option<seq<Gene>>, attempts: seq<nat -> nat>) returns (r: Result<seq<Gene>, SearchError>)
      requires Valid()
      modifies this`allPopulation, this`history, this`pareto
      ensures BruteForcePool(n, stored, attempts).Err? ==> r == BruteForcePool(n, stored, attempts)
      ensures BruteForcePool(n, stored, attempts).Ok? && batch == 0 ==> r == Err(ZeroBatch)
      ensures r.Ok? ==>
                && r == BruteForcePool(n, stored, attempts) && |r.value| <= n
                && allPopulation == old(allPopulation) + r.value
                && history == Join(old(history), Evaluate(evaluator, r.value))
                && (n > 0 ==> ParetoUpdate(findPareto, allPopulation, history) == Ok(pareto))
      ensures r.Err? && BruteForcePool(n, stored, attempts).Ok? && batch > 0 ==>
                pareto == EmptyFront() && ParetoUpdate(findPareto, allPopulation, history) == Err(r.error)
    {
      var pool := LoadPool(n, stored, attempts);
      if pool.Err? {
        return pool;
      }
      if batch == 0 {
        return Err(ZeroBatch);
      }
      var population := pool.value;
      var done := RunBatches(population, n, batch);
      if done.Err? {
        return Err(done.error);
      }
      r := Ok(population);
    }

    /** The batch loop of `semi_brute_force` as written: the first batch is measured and the
        frontier updated, and then the plotting call passes the keyword `iter`, which
        `plot_search_state` does not accept, so the loop raises before a second batch starts. */
    method FirstBatchAsWritten(population: seq<Gene>, n: nat, batch: nat) returns (r: Result<(), SearchError>)
      requires batch > 0 && |population| <= n
      modifies this`allPopulation, this`history, this`pareto
      ensures n == 0 ==> r == Ok(()) && allPopulation == old(allPopulation) && history == old(history) && pareto == old(pareto)
      ensures n > 0 ==>
                var first := Slice(population, 0, batch);
                var u := ParetoUpdate(findPareto, allPopulation, history);
                && allPopulation == old(allPopulation) + first
                && history == Join(old(history), Evaluate(evaluator, first))
                && pareto == (if u.Ok? then u.value else EmptyFront())
                && r == (if u.Ok? then Err(UnexpectedKeyword) else Err(u.error))
      ensures |population| > batch ==> r.Err? && |allPopulation| < |old(allPopulation)| + |population|
    {
      if n == 0 {
        return Ok(());
      }
      var current := Slice(population, 0, batch);
      assert Evaluate(evaluator, []) == NoHistory();
      var u := BruteForceBatch(allPopulation, history, [], current);
      assert [] + current == current;
      if u.Err? {
        return Err(u.error);
      }
      // `plot_search_state(iter=idx)`
      r := Err(UnexpectedKeyword);
    }

    /** `semi_brute_force` as written: only the first batch of the pool is visited before the
        plotting call raises. */
    method SemiBruteForceAsWritten(n: nat, batch: nat, stored: Option<seq<Gene>>, attempts: seq<nat -> nat>) returns (r: Result<seq<Gene>, SearchError>)
      requires Valid()
      modifies this`allPopulation, this`history, this`pareto
      ensures BruteForcePool(n, stored, attempts).Err? ==> r == BruteForcePool(n, stored, attempts)
      ensures BruteForcePool(n, stored, attempts).Ok? && batch == 0 ==> r == Err(ZeroBatch)
      ensures BruteForcePool(n, stored, attempts).Ok? && batch > 0 && n == 0 ==> r == BruteForcePool(n, stored, attempts)
      ensures BruteForcePool(n, stored, attempts).Ok? && batch > 0 && n > 0 ==>
                && allPopulation == old(allPopulation) + Slice(BruteForcePool(n, stored, attempts).value, 0, batch)
                && r.Err? && (r == Err(UnexpectedKeyword) <==> ParetoUpdate(findPareto, allPopulation, history).Ok?)
      ensures BruteForcePool(n, stored, attempts).Ok? && batch > 0 && |BruteForcePool(n, stored, attempts).value| > batch ==>
                r.Err? && |allPopulation| < |old(allPopulation)| + |BruteForcePool(n, stored, attempts).value|
    {
      var pool := LoadPool(n, stored, attempts);
      if pool.Err? {
        return pool;
      }
      if batch == 0 {
        return Err(ZeroBatch);
      }
      var population := pool.value;
      var done := FirstBatchAsWritten(population, n, batch);
      if done.Err? {
        return Err(done.error);
      }
      r := Ok(population);
    }
  }
}
