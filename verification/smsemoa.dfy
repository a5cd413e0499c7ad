/** The visible selection logic of SMS-EMOA: picking out the last
    (worst-ranked) nondominated front before the fitness evaluator runs,
    the `indicator` configuration option, and the comparator that
    tournament selection uses. Ranks come from nondominated sorting, which
    is an input here; the fitness evaluators themselves are only named. */
module SmsEmoa {
  import opened Results
  import JavaText

  /** A population member: an opaque payload plus the `rank` attribute set
      by nondominated sorting and the `fitness` attribute. */
  datatype Solution<P> = Solution(payload: P, rank: int, fitness: real)

  // ---------------------------------------------------------------------
  // The last front

  /** The rank `computeFitnessForLastFront` settles on: the largest rank in
      the population, but never below 0 (its running maximum starts at 0). */
  function LastRank<P>(pop: seq<Solution<P>>): (r: int)
    ensures r >= 0
    ensures forall i :: 0 <= i < |pop| ==> pop[i].rank <= r
  {
    if |pop| == 0 then 0
    else
      var prev := LastRank(pop[..|pop| - 1]);
      var last := pop[|pop| - 1].rank;
      if last > prev then last else prev
  }

  /** A positive last rank is the rank of some solution. */
  lemma {:induction false} LastRankAttained<P>(pop: seq<Solution<P>>)
    ensures LastRank(pop) > 0 ==> exists i :: 0 <= i < |pop| && pop[i].rank == LastRank(pop)
  {
    if |pop| > 0 {
      var init := pop[..|pop| - 1];
      LastRankAttained(init);
      if LastRank(pop) > 0 && LastRank(pop) != pop[|pop| - 1].rank {
        var i :| 0 <= i < |init| && init[i].rank == LastRank(init);
        assert pop[i] == init[i];
      }
    }
  }

  /** Positions of the solutions of rank `rank`, in population order. */
  function RankIndices<P>(pop: seq<Solution<P>>, rank: int): seq<nat> {
    if |pop| == 0 then []
    else
      var front := RankIndices(pop[..|pop| - 1], rank);
      if pop[|pop| - 1].rank == rank then front + [|pop| - 1] else front
  }

  /** The positions collected for a rank are exactly those of the solutions
      of that rank, strictly increasing. */
  lemma {:induction false} RankIndicesShape<P>(pop: seq<Solution<P>>, rank: int)
    ensures forall k :: 0 <= k < |RankIndices(pop, rank)| ==>
      RankIndices(pop, rank)[k] < |pop| && pop[RankIndices(pop, rank)[k]].rank == rank
    ensures forall i :: 0 <= i < |pop| && pop[i].rank == rank ==> i in RankIndices(pop, rank)
    ensures forall k, l :: 0 <= k < l < |RankIndices(pop, rank)| ==>
      RankIndices(pop, rank)[k] < RankIndices(pop, rank)[l]
  {
    if |pop| > 0 {
      var init := pop[..|pop| - 1];
      RankIndicesShape(init, rank);
      assert forall i :: 0 <= i < |init| ==> init[i] == pop[i];
    }
  }

  /** The front handed to the fitness evaluator, as positions. */
  function LastFront<P>(pop: seq<Solution<P>>): seq<nat> {
    RankIndices(pop, LastRank(pop))
  }

  lemma RankIndicesAbsent<P>(pop: seq<Solution<P>>, rank: int)
    requires forall i :: 0 <= i < |pop| ==> pop[i].rank < rank
    ensures RankIndices(pop, rank) == []
  {
    RankIndicesShape(pop, rank);
  }

  /** Extending a prefix of the population by one solution. */
  lemma PrefixStep<P>(pop: seq<Solution<P>>, i: nat, rank: int)
    requires i < |pop|
    ensures var prev := LastRank(pop[..i]);
      LastRank(pop[..i + 1]) == if pop[i].rank > prev then pop[i].rank else prev
    ensures RankIndices(pop[..i + 1], rank) ==
      RankIndices(pop[..i], rank) + (if pop[i].rank == rank then [i] else [])
  {
    assert pop[..i + 1][..i] == pop[..i];
  }

  /** `computeFitnessForLastFront`: every solution's fitness becomes 0, and
      the positions of the solutions of the last front are collected in
      population order. */
  method ComputeFitnessForLastFront<P>(population: seq<Solution<P>>)
    returns (updated: seq<Solution<P>>, front: seq<nat>)
    ensures |updated| == |population|
    ensures forall i :: 0 <= i < |population| ==> updated[i] == population[i].(fitness := 0.0)
    ensures front == LastFront(population)
  {
    var rank := 0;
    front := [];
    updated := [];
    var i := 0;
    while i < |population|
      invariant 0 <= i <= |population|
      invariant rank == LastRank(population[..i])
      invariant front == RankIndices(population[..i], rank)
      invariant |updated| == i
      invariant forall j :: 0 <= j < i ==> updated[j] == population[j].(fitness := 0.0)
    {
      var solution := population[i];
      PrefixStep(population, i, if solution.rank > rank then solution.rank else rank);
      if solution.rank > rank {
        RankIndicesAbsent(population[..i], solution.rank);
        front := [];
        rank := solution.rank;
      }
      if solution.rank == rank {
        front := front + [i];
      }
      updated := updated + [solution.(fitness := 0.0)];
      i := i + 1;
    }
    assert population[..i] == population;
  }

  /** The last front holds, in population order, exactly the positions of
      the solutions whose rank is the last rank. */
  lemma LastFrontMembers<P>(pop: seq<Solution<P>>)
    ensures forall i :: 0 <= i < |pop| ==> (i in LastFront(pop) <==> pop[i].rank == LastRank(pop))
    ensures forall k, l :: 0 <= k < l < |LastFront(pop)| ==> LastFront(pop)[k] < LastFront(pop)[l]
  {
    RankIndicesShape(pop, LastRank(pop));
  }

  /** With non-negative ranks the last rank is the population's largest
      rank, and a non-empty population has a non-empty last front. */
  lemma LastFrontNonEmpty<P>(pop: seq<Solution<P>>)
    requires |pop| > 0
    requires forall i :: 0 <= i < |pop| ==> pop[i].rank >= 0
    ensures exists i :: 0 <= i < |pop| && pop[i].rank == LastRank(pop)
    ensures |LastFront(pop)| > 0
  {
    var r := LastRank(pop);
    LastRankAttained(pop);
    RankIndicesShape(pop, r);
    var w :| 0 <= w < |pop| && pop[w].rank == r by {
      if r == 0 {
        assert pop[0].rank == r;
      }
    }
    assert w in LastFront(pop);
  }

  // ---------------------------------------------------------------------
  // The `indicator` option

  /** The kinds of fitness evaluator the configuration distinguishes;
      `OtherEvaluator` stands for any other evaluator, among them the
      hypervolume-contribution evaluator of the default constructor. */
  datatype Evaluator = HypervolumeEvaluator | AdditiveEpsilonEvaluator | OtherEvaluator

  datatype ConfigurationError = InvalidIndicator(value: string)

  type Properties = map<string, string>

  const IndicatorKey: string := "indicator"

  /** The evaluator-related part of `applyConfiguration`: an `indicator`
      value equal to `hypervolume` or `epsilon` ignoring case selects that
      evaluator, any other value is a `ConfigurationException`, and no
      `indicator` key keeps the current evaluator (possibly none). */
  function ApplyConfiguration(properties: Properties, current: Option<Evaluator>)
    : (r: Result<Option<Evaluator>, ConfigurationError>)
    ensures IndicatorKey !in properties ==> r == Success(current)
    ensures IndicatorKey in properties ==>
      (r.Success? <==> JavaText.EqualsIgnoreCase("hypervolume", properties[IndicatorKey])
                       || JavaText.EqualsIgnoreCase("epsilon", properties[IndicatorKey]))
    ensures r.Failure? ==> r.error == InvalidIndicator(properties[IndicatorKey])
    ensures IndicatorKey in properties && r.Success? ==> r.value.Some?
  {
    if IndicatorKey !in properties then Success(current)
    else
      var indicator := properties[IndicatorKey];
      if JavaText.EqualsIgnoreCase("hypervolume", indicator) then Success(Some(HypervolumeEvaluator))
      else if JavaText.EqualsIgnoreCase("epsilon", indicator) then Success(Some(AdditiveEpsilonEvaluator))
      else Failure(InvalidIndicator(indicator))
  }

  /** The evaluator-related part of `getConfiguration` over the properties
      `base` the superclass reports: `indicator` is set only for the
      hypervolume and additive-epsilon evaluators. */
  function GetConfiguration(evaluator: Option<Evaluator>, base: Properties): (r: Properties)
    ensures forall k :: k != IndicatorKey ==> (k in r <==> k in base)
    ensures forall k :: k != IndicatorKey && k in base ==> r[k] == base[k]
    ensures evaluator == Some(HypervolumeEvaluator) ==> IndicatorKey in r && r[IndicatorKey] == "hypervolume"
    ensures evaluator == Some(AdditiveEpsilonEvaluator) ==> IndicatorKey in r && r[IndicatorKey] == "epsilon"
    ensures evaluator !in {Some(HypervolumeEvaluator), Some(AdditiveEpsilonEvaluator)} ==> r == base
  {
    match evaluator
    case Some(HypervolumeEvaluator) => base[IndicatorKey := "hypervolume"]
    case Some(AdditiveEpsilonEvaluator) => base[IndicatorKey := "epsilon"]
    case _ => base
  }

  lemma EqualsIgnoreCaseRefl(s: string)
    ensures JavaText.EqualsIgnoreCase(s, s)
  {
  }

  /** Reading back a reported configuration restores the evaluator kind for
      the two kinds that are reported, whatever else the properties hold
      and whatever evaluator was current. */
  lemma ConfigurationRoundTrip(evaluator: Evaluator, base: Properties, current: Option<Evaluator>)
    requires evaluator != OtherEvaluator
    ensures ApplyConfiguration(GetConfiguration(Some(evaluator), base), current) == Success(Some(evaluator))
  {
    EqualsIgnoreCaseRefl("hypervolume");
    EqualsIgnoreCaseRefl("epsilon");
    if evaluator == AdditiveEpsilonEvaluator {
      assert !JavaText.EqualsIgnoreCase("hypervolume", "epsilon");
    }
  }

  /** Applying `indicator=EPSILON` and reading the configuration back
      reports `indicator=epsilon`. */
  lemma EpsilonUpperCaseReadsBack(base: Properties, current: Option<Evaluator>)
    ensures ApplyConfiguration(map[IndicatorKey := "EPSILON"], current) == Success(Some(AdditiveEpsilonEvaluator))
    ensures GetConfiguration(Some(AdditiveEpsilonEvaluator), base)[IndicatorKey] == "epsilon"
  {
    var props := map[IndicatorKey := "EPSILON"];
    assert props[IndicatorKey] == "EPSILON";
    assert !JavaText.EqualsIgnoreCase("hypervolume", "EPSILON");
    assert JavaText.EqualsIgnoreCase("epsilon", "EPSILON") by {
      forall i | 0 <= i < 7
        ensures JavaText.CharEqualsIgnoreCase("epsilon"[i], "EPSILON"[i])
      {
        assert JavaText.ToUpper("epsilon"[i]) == "EPSILON"[i];
      }
    }
  }

  // ---------------------------------------------------------------------
  // Tournament comparator

  /** The comparator given to tournament selection: nondominated sorting
      alone when there is no fitness evaluator, otherwise rank first and
      then fitness in the evaluator's preferred direction. */
  datatype SelectionComparator =
    | NondominatedSorting
    | RankThenFitness(largerPreferred: bool)

  /** The constructor's choice; `largerPreferred` is the evaluator's
      `areLargerValuesPreferred()`. */
  function ChooseComparator(evaluator: Option<Evaluator>, largerPreferred: bool): (c: SelectionComparator)
    ensures c.NondominatedSorting? <==> evaluator.None?
    ensures c.RankThenFitness? ==> c.largerPreferred == largerPreferred
  {
    if evaluator.None? then NondominatedSorting else RankThenFitness(largerPreferred)
  }

  function CompareReals(a: real, b: real): int {
    if a < b then -1 else if a > b then 1 else 0
  }

  /** The chained rank-then-fitness comparison: negative when `a` is
      preferred. A lower rank wins; equal ranks fall back to fitness, where
      the larger value wins when larger values are preferred. */
  function CompareRankThenFitness<P>(a: Solution<P>, b: Solution<P>, largerPreferred: bool): (c: int)
    ensures -1 <= c <= 1
  {
    if a.rank < b.rank then -1
    else if a.rank > b.rank then 1
    else if largerPreferred then CompareReals(b.fitness, a.fitness)
    else CompareReals(a.fitness, b.fitness)
  }

  /** Rank dominates the comparison; fitness only breaks ties, in the
      preferred direction. */
  lemma RankPrecedence<P>(a: Solution<P>, b: Solution<P>, largerPreferred: bool)
    ensures a.rank < b.rank ==> CompareRankThenFitness(a, b, largerPreferred) < 0
    ensures a.rank == b.rank && largerPreferred ==>
      (CompareRankThenFitness(a, b, largerPreferred) < 0 <==> a.fitness > b.fitness)
    ensures a.rank == b.rank && !largerPreferred ==>
      (CompareRankThenFitness(a, b, largerPreferred) < 0 <==> a.fitness < b.fitness)
  {
  }

  /** The comparison is antisymmetric and transitive, so tournament
      selection sees a consistent order. */
  lemma CompareIsOrder<P>(a: Solution<P>, b: Solution<P>, c: Solution<P>, largerPreferred: bool)
    ensures CompareRankThenFitness(a, b, largerPreferred) == -CompareRankThenFitness(b, a, largerPreferred)
    ensures CompareRankThenFitness(a, b, largerPreferred) < 0 && CompareRankThenFitness(b, c, largerPreferred) < 0 ==>
      CompareRankThenFitness(a, c, largerPreferred) < 0
  {
  }
}
