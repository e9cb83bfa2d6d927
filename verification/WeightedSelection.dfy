/**
 * The weighted choice of a variation: every candidate's weight formula is
 * rounded to an int, a draw r is taken from [0, total), and the first
 * candidate whose running remainder of r drops below zero is chosen. The int
 * arithmetic of the total and of the remainder wraps around, as in Java.
 */
module WeightedSelection {
  import opened Results
  import opened JavaNumbers
  import opened CalculationNodes

  /** The sum of the weights, in unbounded arithmetic. */
  function Sum(ws: seq<int>): int
  {
    if ws == [] then 0 else Sum(ws[..|ws| - 1]) + ws[|ws| - 1]
  }

  lemma SumStep(ws: seq<int>, k: nat)
    requires k < |ws|
    ensures Sum(ws[..k + 1]) == Sum(ws[..k]) + ws[k]
  {
    assert ws[..k + 1][..k] == ws[..k];
  }

  /** The sum of the weights as Java's unchecked `int` addition computes it. */
  function IntSum(ws: seq<Int32>): Int32
  {
    if ws == [] then 0 else Truncate(IntSum(ws[..|ws| - 1]) + ws[|ws| - 1], INT_MODULUS)
  }

  /** The draw after subtracting the first `k` weights in `int` arithmetic. */
  function Remainder(ws: seq<Int32>, r: Int32, k: nat): Int32
    requires k <= |ws|
  {
    if k == 0 then r else Truncate(Remainder(ws, r, k - 1) - ws[k - 1], INT_MODULUS)
  }

  /** Index `i` is the one the draw `r` falls to: the first whose running sum exceeds r. */
  ghost predicate Selects(ws: seq<int>, r: int, i: int)
  {
    && 0 <= i < |ws|
    && r < Sum(ws[..i + 1])
    && (forall k :: 1 <= k <= i ==> Sum(ws[..k]) <= r)
  }

  /**
   * `picked` is the first index at which the int remainder of the draw is
   * negative, or none when the remainder never becomes negative.
   */
  ghost predicate FirstNegative(ws: seq<Int32>, r: Int32, picked: Option<nat>)
  {
    match picked
    case Some(i) =>
      && i < |ws| && Remainder(ws, r, i + 1) < 0
      && forall k :: 1 <= k <= i ==> Remainder(ws, r, k) >= 0
    case None => forall k :: 1 <= k <= |ws| ==> Remainder(ws, r, k) >= 0
  }

  /** No running remainder of the draw leaves the range of int. */
  ghost predicate NoWrap(ws: seq<int>, r: int)
  {
    forall k :: 0 <= k <= |ws| ==> IsInt32(r - Sum(ws[..k]))
  }

  /** Without wrap-around, the int remainder is the exact one. */
  lemma {:induction false} RemainderExact(ws: seq<Int32>, r: Int32, k: nat)
    requires k <= |ws| && NoWrap(ws, r)
    ensures Remainder(ws, r, k) == r - Sum(ws[..k])
  {
    if k == 0 {
      assert ws[..0] == [];
    } else {
      RemainderExact(ws, r, k - 1);
      SumStep(ws, k - 1);
    }
  }

  /** Without overflow of any running sum, the int total is the exact total. */
  lemma {:induction false} IntSumExact(ws: seq<Int32>)
    requires forall k :: 0 <= k <= |ws| ==> IsInt32(Sum(ws[..k]))
    ensures IntSum(ws) == Sum(ws)
  {
    if ws != [] {
      var init := ws[..|ws| - 1];
      forall k | 0 <= k <= |init|
        ensures IsInt32(Sum(init[..k]))
      {
        assert init[..k] == ws[..k];
      }
      IntSumExact(init);
      assert ws[..|ws|] == ws;
    }
  }

  lemma {:induction false} SumMonotone(ws: seq<int>, j: nat, k: nat)
    requires forall i :: 0 <= i < |ws| ==> ws[i] >= 0
    requires j <= k <= |ws|
    ensures Sum(ws[..j]) <= Sum(ws[..k])
    decreases k
  {
    if j < k {
      SumMonotone(ws, j, k - 1);
      SumStep(ws, k - 1);
    }
  }

  /**
   * The selection loop of modifyEntityWeighted: subtracts the weights from
   * the draw one by one and stops at the first index where the remainder
   * becomes negative; no index when it never does. Without wrap-around that
   * index is the one the draw falls to.
   */
  method PickIndex(weights: seq<Int32>, r: Int32) returns (picked: Option<nat>)
    ensures FirstNegative(weights, r, picked)
    ensures NoWrap(weights, r) && picked.Some? ==> Selects(weights, r, picked.value)
    ensures NoWrap(weights, r) && picked.None? ==> forall i :: !Selects(weights, r, i)
  {
    var target := r;
    var index := 0;
    while index < |weights|
      invariant 0 <= index <= |weights|
      invariant target == Remainder(weights, r, index)
      invariant forall k :: 1 <= k <= index ==> Remainder(weights, r, k) >= 0
    {
      target := Truncate(target - weights[index], INT_MODULUS);
      if target < 0 {
        picked := Some(index);
        if NoWrap(weights, r) {
          FirstNegativeSelects(weights, r, picked);
        }
        return;
      }
      index := index + 1;
    }
    picked := None;
    if NoWrap(weights, r) {
      FirstNegativeSelects(weights, r, picked);
    }
  }

  /** Without wrap-around, the first negative remainder is at the index the draw falls to. */
  lemma FirstNegativeSelects(weights: seq<Int32>, r: Int32, picked: Option<nat>)
    requires FirstNegative(weights, r, picked) && NoWrap(weights, r)
    ensures picked.Some? ==> Selects(weights, r, picked.value)
    ensures picked.None? ==> forall i :: !Selects(weights, r, i)
  {
    forall k | 1 <= k <= |weights|
      ensures Remainder(weights, r, k) == r - Sum(weights[..k])
    {
      RemainderExact(weights, r, k);
    }
  }

  /** Non-negative weights whose total fits an int never wrap, for a draw in [0, total). */
  lemma NonNegativeNoWrap(ws: seq<Int32>, r: Int32)
    requires forall i :: 0 <= i < |ws| ==> ws[i] >= 0
    requires 0 <= r && Sum(ws) <= INT_MAX
    ensures NoWrap(ws, r)
    ensures forall k :: 0 <= k <= |ws| ==> IsInt32(Sum(ws[..k]))
  {
    forall k | 0 <= k <= |ws|
      ensures 0 <= Sum(ws[..k]) <= Sum(ws)
    {
      SumMonotone(ws, 0, k);
      SumMonotone(ws, k, |ws|);
      assert ws[..0] == [] && ws[..|ws|] == ws;
    }
  }

  /**
   * With non-negative weights the draw falls to index i exactly when it
   * lies in [w[0] + ... + w[i-1], w[0] + ... + w[i]).
   */
  lemma SelectsInterval(ws: seq<int>, r: int, i: int)
    requires forall j :: 0 <= j < |ws| ==> ws[j] >= 0
    requires 0 <= r
    ensures Selects(ws, r, i) <==> 0 <= i < |ws| && Sum(ws[..i]) <= r < Sum(ws[..i + 1])
  {
    if 0 <= i < |ws| {
      if Sum(ws[..i]) <= r {
        forall k | 1 <= k <= i
          ensures Sum(ws[..k]) <= r
        {
          SumMonotone(ws, k, i);
        }
      }
      assert ws[..0] == [];
    }
  }

  /**
   * With non-negative weights, a draw in [0, total) selects exactly one
   * index.
   */
  lemma {:induction false} SelectionExists(ws: seq<int>, r: int)
    requires forall j :: 0 <= j < |ws| ==> ws[j] >= 0
    requires 0 <= r < Sum(ws)
    ensures exists i :: Selects(ws, r, i)
    ensures forall i, j :: Selects(ws, r, i) && Selects(ws, r, j) ==> i == j
  {
    // the last index whose running sum does not exceed r
    var i := 0;
    assert ws[..0] == [] && ws[..|ws|] == ws;
    while i < |ws| && Sum(ws[..i + 1]) <= r
      invariant 0 <= i <= |ws| && Sum(ws[..i]) <= r
      decreases |ws| - i
    {
      i := i + 1;
    }
    SelectsInterval(ws, r, i);
  }

  /** A selected index has a positive weight; in particular a weight-0 candidate is never chosen. */
  lemma SelectedWeightPositive(ws: seq<int>, r: int, i: int)
    requires 0 <= r && Selects(ws, r, i)
    ensures ws[i] > 0
  {
    SumStep(ws, i);
    if i == 0 {
      assert ws[..0] == [];
    }
  }

  /** The integers in [lo, hi). */
  function Range(lo: int, hi: int): (s: set<int>)
    ensures forall x :: x in s <==> lo <= x < hi
    ensures lo <= hi ==> |s| == hi - lo
    decreases hi - lo
  {
    if hi <= lo then {} else Range(lo, hi - 1) + {hi - 1}
  }

  /** The draws in [0, total) that select index i. */
  ghost function Draws(ws: seq<int>, i: int): set<int>
  {
    set r | r in Range(0, Sum(ws)) && Selects(ws, r, i)
  }

  /**
   * Each candidate is chosen by exactly as many draws in [0, total) as its
   * weight: with a uniform draw, the chance of candidate i is w[i] / total.
   */
  lemma SelectionProportional(ws: seq<int>, i: int)
    requires forall j :: 0 <= j < |ws| ==> ws[j] >= 0
    requires 0 <= i < |ws|
    ensures |Draws(ws, i)| == ws[i]
  {
    var lo, hi := Sum(ws[..i]), Sum(ws[..i + 1]);
    SumStep(ws, i);
    SumMonotone(ws, 0, i);
    SumMonotone(ws, i + 1, |ws|);
    assert ws[..0] == [] && ws[..|ws|] == ws;
    forall r
      ensures r in Draws(ws, i) <==> r in Range(lo, hi)
    {
      if 0 <= r {
        SelectsInterval(ws, r, i);
      }
    }
    assert Draws(ws, i) == Range(lo, hi);
  }

  /** calculateWeight rounded to an int, the weight of one candidate. */
  function Weight(weightCalculation: CalculationNode, values: map<string, real>): (r: Result<Int32>)
    ensures r.Ok? <==> (weightCalculation.RequiredVariables() <= values.Keys
                        && IsInt32(RoundToLong(weightCalculation.expression.evaluate(values))))
    ensures r.Ok? ==> r.value == RoundToLong(weightCalculation.expression.evaluate(values))
  {
    var w :- weightCalculation.CalculateVariable(values);
    ToIntExact(RoundToLong(w))
  }

  /** The weights of all candidates, or the failure of the first one that has none. */
  function Weights(weightCalculations: seq<CalculationNode>, values: map<string, real>): (r: Result<seq<Int32>>)
    ensures r.Ok? <==> forall i :: 0 <= i < |weightCalculations| ==> Weight(weightCalculations[i], values).Ok?
    ensures r.Ok? ==> |r.value| == |weightCalculations|
    ensures r.Ok? ==> forall i :: 0 <= i < |r.value| ==> r.value[i] == Weight(weightCalculations[i], values).value
    ensures r.Err? ==> exists i :: (0 <= i < |weightCalculations| && Weight(weightCalculations[i], values).Err?
                                   && r.error == Weight(weightCalculations[i], values).error
                                   && forall j :: 0 <= j < i ==> Weight(weightCalculations[j], values).Ok?)
  {
    if weightCalculations == [] then Ok([])
    else
      match Weight(weightCalculations[0], values)
      case Err(e) => Err(e)
      case Ok(w) =>
        var rest := Weights(weightCalculations[1..], values);
        if rest.Err? then
          assert forall i :: 0 <= i < |weightCalculations| - 1 ==> weightCalculations[1..][i] == weightCalculations[i + 1];
          Err(rest.error)
        else Ok([w] + rest.value)
  }

  /**
   * The weight loop of modifyEntityWeighted: rounds every candidate's weight
   * in order, stopping at the first failure, and accumulates the total in
   * int arithmetic.
   */
  method ComputeWeights(weightCalculations: seq<CalculationNode>, values: map<string, real>)
    returns (r: Result<seq<Int32>>, total: Int32)
    ensures r == Weights(weightCalculations, values)
    ensures r.Ok? ==> total == IntSum(r.value)
  {
    var weights: seq<Int32> := [];
    total := 0;
    for index := 0 to |weightCalculations|
      invariant |weights| == index
      invariant forall j :: 0 <= j < index ==> Weight(weightCalculations[j], values) == Ok(weights[j])
      invariant total == IntSum(weights)
    {
      var weight := Weight(weightCalculations[index], values);
      if weight.Err? {
        WeightsFirstFailure(weightCalculations, values, index);
        return Err(weight.error), total;
      }
      IntSumStep(weights, weight.value);
      weights := weights + [weight.value];
      total := Truncate(total + weight.value, INT_MODULUS);
    }
    WeightsAllSucceed(weightCalculations, values, weights);
    r := Ok(weights);
  }

  /** Adding one more weight to the int total. */
  lemma IntSumStep(ws: seq<Int32>, w: Int32)
    ensures IntSum(ws + [w]) == Truncate(IntSum(ws) + w, INT_MODULUS)
  {
    assert (ws + [w])[..|ws|] == ws;
  }

  lemma WeightsAllSucceed(weightCalculations: seq<CalculationNode>, values: map<string, real>, ws: seq<Int32>)
    requires |ws| == |weightCalculations|
    requires forall j :: 0 <= j < |ws| ==> Weight(weightCalculations[j], values) == Ok(ws[j])
    ensures Weights(weightCalculations, values) == Ok(ws)
  {
    var r := Weights(weightCalculations, values);
    assert r.Ok?;
    assert r.value == ws;
  }

  lemma WeightsFirstFailure(weightCalculations: seq<CalculationNode>, values: map<string, real>, i: nat)
    requires i < |weightCalculations| && Weight(weightCalculations[i], values).Err?
    requires forall j :: 0 <= j < i ==> Weight(weightCalculations[j], values).Ok?
    ensures Weights(weightCalculations, values) == Err(Weight(weightCalculations[i], values).error)
  {
    var r := Weights(weightCalculations, values);
    assert r.Err?;
    var i' :| 0 <= i' < |weightCalculations| && Weight(weightCalculations[i'], values).Err?
              && r.error == Weight(weightCalculations[i'], values).error
              && forall j :: 0 <= j < i' ==> Weight(weightCalculations[j], values).Ok?;
    assert i' == i;
  }

  /**
   * What the selection of modifyEntityWeighted yields: the failure of the
   * first weight that cannot be computed; Random.nextInt's failure when the
   * int total is not positive; otherwise the first index at which the int
   * remainder of the draw nextInt(total) becomes negative, if any.
   */
  ghost predicate SelectionOutcome(weightCalculations: seq<CalculationNode>, values: map<string, real>,
                                   nextInt: int -> int, r: Result<Option<nat>>)
  {
    match Weights(weightCalculations, values)
    case Err(e) => r == Err(e)
    case Ok(ws) =>
      if IntSum(ws) <= 0 then r == Err(IllegalArgument("bound must be positive"))
      else r.Ok? && IsInt32(nextInt(IntSum(ws))) && FirstNegative(ws, nextInt(IntSum(ws)), r.value)
  }

  /**
   * The promise of the weighted choice: when every weight is computed,
   * none is negative and their total is positive and fits an int, exactly
   * the candidate the draw nextInt(total) falls to is chosen, and its weight
   * is positive.
   */
  ghost predicate FairSelection(weightCalculations: seq<CalculationNode>, values: map<string, real>,
                                nextInt: int -> int, r: Result<Option<nat>>)
  {
    Weights(weightCalculations, values).Ok? ==>
      var ws := Weights(weightCalculations, values).value;
      (forall i :: 0 <= i < |ws| ==> ws[i] >= 0) && 0 < Sum(ws) <= INT_MAX ==>
        && r.Ok? && r.value.Some?
        && Selects(ws, nextInt(Sum(ws)), r.value.value)
        && ws[r.value.value] > 0
  }

  /**
   * modifyEntityWeighted without the entity: computes the weights, fails
   * as Random.nextInt does when the int total is not positive, draws
   * r = nextInt(total) and returns the index of the candidate whose
   * modifyEntity runs, if any. For non-negative weights with a positive
   * total that fits an int, exactly the candidate the draw falls to is
   * returned, and its weight is positive.
   */
  method SelectWeighted(weightCalculations: seq<CalculationNode>, values: map<string, real>, nextInt: int -> int)
    returns (r: Result<Option<nat>>)
    requires forall bound :: 0 < bound ==> 0 <= nextInt(bound) < bound
    ensures SelectionOutcome(weightCalculations, values, nextInt, r)
    ensures FairSelection(weightCalculations, values, nextInt, r)
  {
    var weights, total := ComputeWeights(weightCalculations, values);
    if weights.Err? {
      return Err(weights.error);
    }
    var ws := weights.value;
    if (forall i :: 0 <= i < |ws| ==> ws[i] >= 0) && 0 < Sum(ws) <= INT_MAX {
      NonNegativeNoWrap(ws, 0);
      IntSumExact(ws);
    }
    if total <= 0 {
      return Err(IllegalArgument("bound must be positive"));
    }
    var draw := nextInt(total);
    var picked := PickIndex(ws, draw);
    r := Ok(picked);
    if (forall i :: 0 <= i < |ws| ==> ws[i] >= 0) && 0 < Sum(ws) <= INT_MAX {
      NonNegativeNoWrap(ws, draw);
      SelectionExists(ws, draw);
      SelectedWeightPositive(ws, draw, picked.value);
    }
  }
}
