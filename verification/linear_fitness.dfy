/** The weighted linear aggregate fitness of a single-objective view of a
    multi-objective solution, over mathematical reals. One weight is meant
    per objective; when fewer weights are given the last one is repeated,
    and surplus weights are ignored. */
module LinearAggregate {
  import opened Results

  /** Indexing `weights[-1]`: no weights for a solution with objectives. */
  datatype AggregateError = NoWeights

  /** The weight index objective `i` uses among `len` weights. */
  function WeightIndex(i: nat, len: nat): (w: int)
    ensures len > 0 ==> 0 <= w < len
    ensures i < len ==> w == i
    ensures len == 0 ==> w == -1
  {
    if i >= len then len - 1 else i
  }

  /** The weight vector a solution with `n` objectives effectively uses:
      cut to `n` entries, or padded with copies of the last weight. */
  function Effective(weights: seq<real>, n: nat): (e: seq<real>)
    requires |weights| > 0
    ensures |e| == n
  {
    if |weights| >= n then weights[..n]
    else weights + seq(n - |weights|, _ => weights[|weights| - 1])
  }

  /** The padded vector agrees with the index rule entry by entry. */
  lemma EffectiveAt(weights: seq<real>, n: nat, i: nat)
    requires |weights| > 0 && i < n
    ensures Effective(weights, n)[i] == weights[WeightIndex(i, |weights|)]
  {
  }

  function Dot(a: seq<real>, b: seq<real>): real
    requires |a| == |b|
  {
    if |a| == 0 then 0.0 else Dot(a[..|a| - 1], b[..|b| - 1]) + a[|a| - 1] * b[|b| - 1]
  }

  function Sum(a: seq<real>): real {
    if |a| == 0 then 0.0 else Sum(a[..|a| - 1]) + a[|a| - 1]
  }

  /** The aggregate fitness `calculateFitness` computes: an error when a
      solution with objectives meets an empty weight vector, otherwise the
      dot product with the effective weights. */
  function Fitness(objectives: seq<real>, weights: seq<real>): Result<real, AggregateError> {
    if |objectives| == 0 then Success(0.0)
    else if |weights| == 0 then Failure(NoWeights)
    else Success(Dot(objectives, Effective(weights, |objectives|)))
  }

  /** `LinearObjectiveComparator.calculateFitness(solution, weights)`, with
      the solution given by its objective values. */
  method CalculateFitness(objectives: seq<real>, weights: seq<real>) returns (r: Result<real, AggregateError>)
    ensures r.Failure? <==> |weights| == 0 && |objectives| > 0
    ensures |objectives| == 0 ==> r == Success(0.0)
    ensures r.Success? && |objectives| > 0 ==> r.value == Dot(objectives, Effective(weights, |objectives|))
  {
    var fitness := 0.0;
    var i := 0;
    while i < |objectives|
      invariant 0 <= i <= |objectives|
      invariant i > 0 ==> |weights| > 0
      invariant i > 0 ==> fitness == Dot(objectives[..i], Effective(weights, |objectives|)[..i])
      invariant i == 0 ==> fitness == 0.0
    {
      var w := WeightIndex(i, |weights|);
      if w < 0 {
        return Failure(NoWeights);
      }
      ghost var e := Effective(weights, |objectives|);
      EffectiveAt(weights, |objectives|, i);
      assert objectives[..i + 1][..i] == objectives[..i];
      assert e[..i + 1][..i] == e[..i];
      fitness := fitness + weights[w] * objectives[i];
      i := i + 1;
    }
    if i > 0 {
      assert objectives[..i] == objectives;
      assert Effective(weights, |objectives|)[..i] == Effective(weights, |objectives|);
    }
    return Success(fitness);
  }

  function Constant(n: nat, w: real): (c: seq<real>)
    ensures |c| == n
  {
    seq(n, _ => w)
  }

  lemma {:induction false} DotConstant(a: seq<real>, w: real)
    ensures Dot(a, Constant(|a|, w)) == w * Sum(a)
  {
    if |a| > 0 {
      assert Constant(|a|, w)[..|a| - 1] == Constant(|a| - 1, w);
      DotConstant(a[..|a| - 1], w);
    }
  }

  /** With a single weight `w` the fitness is `w` times the sum of the
      objectives. */
  lemma SingleWeight(objectives: seq<real>, w: real)
    ensures Fitness(objectives, [w]) == Success(w * Sum(objectives))
  {
    if |objectives| > 0 {
      assert Effective([w], |objectives|) == Constant(|objectives|, w);
      DotConstant(objectives, w);
    }
  }

  /** Weights beyond the number of objectives make no difference. */
  lemma ExtraWeightsIgnored(objectives: seq<real>, weights: seq<real>, extra: seq<real>)
    requires |weights| >= |objectives|
    ensures Fitness(objectives, weights + extra) == Fitness(objectives, weights)
  {
    if |objectives| > 0 {
      assert (weights + extra)[..|objectives|] == weights[..|objectives|];
    }
  }

  /** Repeating the last weight explicitly changes nothing: short weight
      vectors behave as if padded with their last entry. */
  lemma PaddingIsImplicit(objectives: seq<real>, weights: seq<real>)
    requires |weights| > 0
    ensures Fitness(objectives, Effective(weights, |objectives|)) == Fitness(objectives, weights)
  {
    var n := |objectives|;
    if n > 0 {
      var e := Effective(weights, n);
      assert Effective(e, n) == e;
    }
  }
}
