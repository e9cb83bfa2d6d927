/**
 * The functions and operators the plugin adds to the formula language:
 * min, max, randomInt and random, and nine comparison and boolean
 * operators whose results are 0 (false) or 1 (true).
 */
module MathOperations {
  import opened Results
  import opened JavaNumbers

  /** The tolerance of == and !=. */
  const EPSILON: real := 0.000000001

  /** min(a, b). */
  function Min(a: real, b: real): (r: real)
    ensures r <= a && r <= b
    ensures r == a || r == b
  {
    if a <= b then a else b
  }

  /** max(a, b). */
  function Max(a: real, b: real): (r: real)
    ensures a <= r && b <= r
    ensures r == a || r == b
  {
    if a >= b then a else b
  }

  /**
   * randomInt(n): a whole number drawn from [0, round(n)); fails as
   * Math.toIntExact does when round(n) leaves the range of int, and as
   * Random.nextInt does when it is not positive. Which number is drawn is
   * left open.
   */
  method RandomInt(n: real) returns (r: Result<real>)
    ensures !IsInt32(RoundToLong(n)) ==> r == Err(Arithmetic("integer overflow"))
    ensures IsInt32(RoundToLong(n)) && RoundToLong(n) <= 0 ==> r == Err(IllegalArgument("bound must be positive"))
    ensures r.Ok? <==> IsInt32(RoundToLong(n)) && 0 < RoundToLong(n)
    ensures r.Ok? ==> r.value == r.value.Floor as real && 0.0 <= r.value < RoundToLong(n) as real
  {
    var bound :- ToIntExact(RoundToLong(n));
    if bound <= 0 {
      return Err(IllegalArgument("bound must be positive"));
    }
    var k: int :| 0 <= k < bound;
    r := Ok(k as real);
  }

  /** random(): a number drawn from [0, 1); which one is left open. */
  method Random() returns (r: real)
    ensures 0.0 <= r < 1.0
  {
    r :| 0.0 <= r < 1.0;
  }

  /** randomInt(5), as in the function's test: one of 0, 1, 2, 3 and 4. */
  method RandomIntOfFive() returns (r: Result<real>)
    ensures r.Ok? && r.value in {0.0, 1.0, 2.0, 3.0, 4.0}
  {
    r := RandomInt(5.0);
    var k := r.value.Floor;
    assert 0 <= k < 5;
  }

  /** The added operators; all are left-associative. */
  datatype Operator =
    | GreaterThan | GreaterThanOrEqual | SmallerThan | SmallerThanOrEqual
    | Equals | EqualsNot | And | Or | Not
  {
    /** The symbol the operator is written with in a formula. */
    function Symbol(): (s: string)
      ensures |s| == 1 || |s| == 2
      ensures |s| == 2 <==> GreaterThanOrEqual? || SmallerThanOrEqual? || Equals? || EqualsNot?
      ensures |s| == 2 ==> s[1] == '='
    {
      match this
      case GreaterThan => ">"
      case GreaterThanOrEqual => ">="
      case SmallerThan => "<"
      case SmallerThanOrEqual => "<="
      case Equals => "=="
      case EqualsNot => "!="
      case And => "&"
      case Or => "|"
      case Not => "~"
    }

    /** The number of operands: one for ~, two for the rest. */
    function Arity(): (n: nat)
      ensures n == 1 <==> this == Not
      ensures n == 1 || n == 2
    {
      if this == Not then 1 else 2
    }

    /** exp4j's precedence: comparisons bind tighter than ~, which binds tighter than | and &. */
    function Precedence(): (p: nat)
      ensures Not? ==> p == 200
      ensures And? ==> p == 120
      ensures Or? ==> p == 125
      ensures !Not? && !And? && !Or? ==> p == 250
    {
      match this
      case And => 120
      case Or => 125
      case Not => 200
      case _ => 250
    }
  }

  /** No two operators share a symbol, so a symbol names exactly one operator. */
  lemma SymbolIdentifiesOperator(a: Operator, b: Operator)
    requires a.Symbol() == b.Symbol()
    ensures a == b
  {
  }

  function Bool(b: bool): real {
    if b then 1.0 else 0.0
  }

  /** The operators' apply: 1 when the relation holds of the operands, else 0. */
  function Apply(op: Operator, values: seq<real>): (r: real)
    requires |values| == op.Arity()
    ensures r == 0.0 || r == 1.0
  {
    match op
    case GreaterThan => Bool(values[0] > values[1])
    case GreaterThanOrEqual => Bool(values[0] >= values[1])
    case SmallerThan => Bool(values[0] < values[1])
    case SmallerThanOrEqual => Bool(values[0] <= values[1])
    case Equals => Bool(Abs(values[0] - values[1]) <= EPSILON)
    case EqualsNot => Bool(Abs(values[0] - values[1]) > EPSILON)
    case And => Bool(values[0] >= 1.0 && values[1] >= 1.0)
    case Or => Bool(values[0] >= 1.0 || values[1] >= 1.0)
    case Not => Bool(values[0] < 1.0)
  }

  /** a > b is b < a, and a >= b is b <= a. */
  lemma ComparisonsMirror(a: real, b: real)
    ensures Apply(GreaterThan, [a, b]) == Apply(SmallerThan, [b, a])
    ensures Apply(GreaterThanOrEqual, [a, b]) == Apply(SmallerThanOrEqual, [b, a])
  {
  }

  /** a > b is the negation of a <= b, and a < b that of a >= b. */
  lemma ComparisonsComplement(a: real, b: real)
    ensures Apply(GreaterThan, [a, b]) == 1.0 - Apply(SmallerThanOrEqual, [a, b])
    ensures Apply(SmallerThan, [a, b]) == 1.0 - Apply(GreaterThanOrEqual, [a, b])
  {
  }

  /** == holds within the tolerance, != is its negation, and both ignore the operands' order. */
  lemma EqualityTolerance(a: real, b: real)
    ensures Apply(Equals, [a, b]) == 1.0 <==> -EPSILON <= a - b <= EPSILON
    ensures Apply(EqualsNot, [a, b]) == 1.0 - Apply(Equals, [a, b])
    ensures Apply(Equals, [a, b]) == Apply(Equals, [b, a])
  {
    assert Abs(b - a) == Abs(a - b);
  }

  /** == is not transitive: each step is within the tolerance, the two together are not. */
  lemma EqualityNotTransitive()
    ensures Apply(Equals, [0.0, EPSILON]) == 1.0 && Apply(Equals, [EPSILON, 2.0 * EPSILON]) == 1.0
    ensures Apply(Equals, [0.0, 2.0 * EPSILON]) == 0.0
  {
  }

  /** & and | treat an operand as true exactly when it is at least 1. */
  lemma BooleanThreshold(a: real, b: real)
    ensures Apply(And, [a, b]) == 1.0 <==> a >= 1.0 && b >= 1.0
    ensures Apply(Or, [a, b]) == 1.0 <==> a >= 1.0 || b >= 1.0
    ensures Apply(Not, [a]) == 1.0 <==> a < 1.0
  {
  }

  /** ~~x is 1 exactly when x is at least 1, so it maps every value to 0 or 1. */
  lemma DoubleNot(x: real)
    ensures Apply(Not, [Apply(Not, [x])]) == 1.0 <==> x >= 1.0
    ensures Apply(Not, [Apply(Not, [x])]) == Bool(x >= 1.0)
  {
  }

  /** De Morgan's laws hold of ~, & and |. */
  lemma DeMorgan(a: real, b: real)
    ensures Apply(Not, [Apply(And, [a, b])]) == Apply(Or, [Apply(Not, [a]), Apply(Not, [b])])
    ensures Apply(Not, [Apply(Or, [a, b])]) == Apply(And, [Apply(Not, [a]), Apply(Not, [b])])
  {
  }

  /** The values the operator and function tests expect. */
  lemma TestValues()
    ensures Min(-134.0, 843.0) == -134.0 && Max(-134.0, 843.0) == 843.0
    ensures Apply(GreaterThan, [2.0, 1.0]) == 1.0 && Apply(GreaterThan, [1.0, 1.0]) == 0.0
    ensures Apply(GreaterThanOrEqual, [1.0, 1.0]) == 1.0 && Apply(GreaterThanOrEqual, [1.0, 2.0]) == 0.0
    ensures Apply(SmallerThan, [1.0, 2.0]) == 1.0 && Apply(SmallerThan, [1.0, 1.0]) == 0.0
    ensures Apply(SmallerThanOrEqual, [1.0, 1.0]) == 1.0 && Apply(SmallerThanOrEqual, [2.0, 1.0]) == 0.0
    ensures Apply(Equals, [1.0, 1.0]) == 1.0 && Apply(Equals, [1.1, 1.0]) == 0.0
    ensures Apply(EqualsNot, [1.1, 1.0]) == 1.0 && Apply(EqualsNot, [1.0, 1.0]) == 0.0
    ensures Apply(And, [1.0, 1.0]) == 1.0 && Apply(And, [0.0, 1.0]) == 0.0
    ensures Apply(Or, [0.0, 1.0]) == 1.0 && Apply(Or, [0.0, 0.0]) == 0.0
    ensures Apply(Not, [0.0]) == 1.0 && Apply(Not, [1.0]) == 0.0
  {
  }
}
