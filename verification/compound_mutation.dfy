/** A mutation operator made of other mutation operators: the parent is
    copied, and each operator is applied in turn to the previous one's
    output. Operators (and the copy) are arbitrary functions on solutions. */
module CompoundMutation {
  /** The operators in the order they are applied. */
  datatype Compound<!S> = Compound(operators: seq<S -> S>)

  /** The constructor appends the operators one by one. */
  method Construct<S>(operators: seq<S -> S>) returns (c: Compound<S>)
    ensures |c.operators| == |operators|
    ensures forall i :: 0 <= i < |operators| ==> c.operators[i] == operators[i]
  {
    var appended: seq<S -> S> := [];
    var i := 0;
    while i < |operators|
      invariant 0 <= i <= |operators|
      invariant appended == operators[..i]
    {
      appended := appended + [operators[i]];
      i := i + 1;
    }
    return Compound(appended);
  }

  /** The result of applying `operators` left to right to `x`. */
  function ApplyAll<S>(operators: seq<S -> S>, x: S): S {
    if |operators| == 0 then x
    else operators[|operators| - 1](ApplyAll(operators[..|operators| - 1], x))
  }

  /** `mutate(parent)`: besides the result, the input each operator receives,
      in application order. */
  method Mutate<S>(c: Compound<S>, copy: S -> S, parent: S) returns (result: S, inputs: seq<S>)
    ensures result == ApplyAll(c.operators, copy(parent))
    ensures |c.operators| == 0 ==> result == copy(parent)
    ensures |inputs| == |c.operators|
    ensures |inputs| > 0 ==> inputs[0] == copy(parent)
    ensures forall i :: 0 <= i < |inputs| - 1 ==> inputs[i + 1] == c.operators[i](inputs[i])
    ensures |inputs| > 0 ==> result == c.operators[|inputs| - 1](inputs[|inputs| - 1])
  {
    result := copy(parent);
    inputs := [];
    var i := 0;
    while i < |c.operators|
      invariant 0 <= i <= |c.operators| && |inputs| == i
      invariant result == ApplyAll(c.operators[..i], copy(parent))
      invariant i > 0 ==> inputs[0] == copy(parent)
      invariant forall k :: 0 <= k < i - 1 ==> inputs[k + 1] == c.operators[k](inputs[k])
      invariant i > 0 ==> result == c.operators[i - 1](inputs[i - 1])
    {
      assert c.operators[..i + 1][..i] == c.operators[..i];
      inputs := inputs + [result];
      result := c.operators[i](result);
      i := i + 1;
    }
    assert c.operators[..i] == c.operators;
  }

  /** Applying a compound of `a` and then a compound of `b` equals applying
      the compound of `a + b`. */
  lemma {:induction false} ApplyAllConcat<S>(a: seq<S -> S>, b: seq<S -> S>, x: S)
    ensures ApplyAll(a + b, x) == ApplyAll(b, ApplyAll(a, x))
  {
    if |b| > 0 {
      assert (a + b)[..|a + b| - 1] == a + b[..|b| - 1];
      assert (a + b)[|a + b| - 1] == b[|b| - 1];
      ApplyAllConcat(a, b[..|b| - 1], x);
    } else {
      assert a + b == a;
    }
  }

  /** The compound of `[f, g]` followed by `h` is the compound of
      `[f, g, h]`. */
  lemma Nesting<S>(f: S -> S, g: S -> S, h: S -> S, x: S)
    ensures ApplyAll([h], ApplyAll([f, g], x)) == ApplyAll([f, g, h], x)
  {
    ApplyAllConcat([f, g], [h], x);
    assert [f, g] + [h] == [f, g, h];
  }
}
