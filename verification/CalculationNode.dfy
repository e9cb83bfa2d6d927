/**
 * The formula library's expression, kept abstract, and the caller-owned
 * variable map that formulas read from and write into.
 */
module Expressions {

  /**
   * A parsed formula: the names of the variables it actually uses and its
   * value for a given binding of variables. Parsing and the arithmetic
   * itself belong to the formula library and are not modelled.
   */
  datatype Expression = Expression(variableNames: set<string>, evaluate: map<string, real> -> real)

  /** A Java `Map<String, Double>` owned by the caller and updated in place. */
  class Variables {
    var values: map<string, real>

    constructor (initial: map<string, real>)
      ensures values == initial
    {
      values := initial;
    }
  }
}

/** One derived variable: its name and the formula that computes it. */
module CalculationNodes {
  import opened Results
  import opened JavaNumbers
  import opened Expressions

  datatype CalculationNode = CalculationNode(variableName: string, expression: Expression) {

    /** getProvidedVariable: the name the node was constructed with. */
    function ProvidedVariable(): (name: string)
      ensures name == variableName
    {
      variableName
    }

    /** getRequiredVariables: the variables the formula uses, nothing else. */
    function RequiredVariables(): (names: set<string>)
      ensures names == expression.variableNames
    {
      expression.variableNames
    }

    /**
     * calculateVariable: the formula's value under `values`, or the
     * missing-variables failure when some variable it uses is unbound.
     */
    function CalculateVariable(values: map<string, real>): (r: Result<real>)
      ensures r.Ok? <==> RequiredVariables() <= values.Keys
      ensures r.Ok? ==> r.value == expression.evaluate(values)
      ensures r.Err? ==> r.error == IllegalArgument("missing variables")
    {
      if !(RequiredVariables() <= values.Keys) then Err(IllegalArgument("missing variables"))
      else Ok(expression.evaluate(values))
    }

    /**
     * calculateAndAddVariable: fails, leaving the map alone, when a required
     * variable is unbound; otherwise binds (or rebinds) the provided name to
     * the formula's value and changes nothing else.
     */
    method CalculateAndAddVariable(variables: Variables) returns (r: Outcome)
      modifies variables
      ensures r.Fail? <==> !(RequiredVariables() <= old(variables.values).Keys)
      ensures r.Fail? ==> r.error == IllegalArgument("missing variables") && variables.values == old(variables.values)
      ensures r.Pass? ==> variables.values == old(variables.values)[variableName := expression.evaluate(old(variables.values))]
    {
      if !(RequiredVariables() <= variables.values.Keys) {
        return Fail(IllegalArgument("missing variables"));
      }
      variables.values := variables.values[variableName := expression.evaluate(variables.values)];
      r := Pass;
    }

    /** equals: nodes are equal exactly when they provide the same name. */
    predicate Equals(other: CalculationNode) {
      variableName == other.variableName
    }

    /** hashCode: 71 * 3 + the name's hash, in int arithmetic. */
    function HashCode(): (h: Int32)
      ensures variableName == [] ==> h == 213
    {
      Truncate(71 * 3 + StringHash(variableName), INT_MODULUS)
    }

    /**
     * compareTo: a cyclic-dependency failure when each node requires the
     * other's variable, -1 when only this one requires the other's, 1 when
     * only the other requires this one's, else the names' order by UTF-16 code units.
     */
    function CompareTo(other: CalculationNode): (r: Result<int>)
      ensures r.Err? <==> other.variableName in RequiredVariables() && variableName in other.RequiredVariables()
      ensures r.Err? ==> r.error == IllegalArgument("cyclic dependency")
      ensures other.variableName in RequiredVariables() && variableName !in other.RequiredVariables() ==> r == Ok(-1)
      ensures other.variableName !in RequiredVariables() && variableName in other.RequiredVariables() ==> r == Ok(1)
      ensures other.variableName !in RequiredVariables() && variableName !in other.RequiredVariables() ==>
                && r == Ok(CompareStrings(variableName, other.variableName))
                && (r.value < 0 <==> LexLess(Utf16(variableName), Utf16(other.variableName)))
                && (r.value == 0 <==> variableName == other.variableName)
    {
      if other.variableName in RequiredVariables() then
        if variableName in other.RequiredVariables() then Err(IllegalArgument("cyclic dependency"))
        else Ok(-1)
      else
        if variableName in other.RequiredVariables() then Ok(1)
        else
          Ok(CompareStrings(variableName, other.variableName))
    }
  }

  /** Equal nodes have equal hash codes: both depend on the provided name alone. */
  lemma EqualNodesHashEqually(a: CalculationNode, b: CalculationNode)
    requires a.Equals(b)
    ensures a.HashCode() == b.HashCode()
    ensures b.Equals(a)
  {
  }

  /**
   * compareTo is antisymmetric wherever it answers: the reversed comparison
   * also answers, with the negated value.
   */
  lemma CompareToAntisymmetric(a: CalculationNode, b: CalculationNode)
    requires a.CompareTo(b).Ok?
    ensures b.CompareTo(a).Ok? && b.CompareTo(a).value == -a.CompareTo(b).value
  {
    CompareStringsAntisymmetric(a.variableName, b.variableName);
  }
}
