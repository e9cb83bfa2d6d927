/**
 * Concrete runs of the dependency graph: the level formula set of the
 * calculation test, a chain whose resolution depends on the waiting set's
 * iteration order, and two nodes that provide the same name.
 */
module CalculationScenarios {
  import opened Results
  import opened Expressions
  import opened CalculationNodes
  import opened Calculations

  function Constant(value: real): Expression {
    Expression({}, _ => value)
  }

  /** A formula that uses exactly `uses`; its value does not matter to the graph. */
  function Uses(uses: set<string>): Expression {
    Expression(uses, _ => 0.0)
  }

  /**
   * Adds a node all of whose variables are already provided, to a graph
   * with no waiting nodes: it is appended and nothing else happens.
   */
  method AddResolvable(c: Calculation, node: CalculationNode)
    requires c.Valid() && c.unresolved == map[]
    requires node.variableName !in c.providedVariables
    requires node.RequiredVariables() <= c.providedVariables
    modifies c
    ensures c.Valid() && c.unresolved == map[]
    ensures c.nodes == old(c.nodes) + [node]
    ensures c.providedVariables == old(c.providedVariables) + {node.variableName}
    ensures c.requiredVariables == old(c.requiredVariables)
  {
    ghost var before := c.nodes;
    var r := c.AddNode(node);
    PassAppendsNone(before + [node], map[], c.providedVariables, c.nodes, c.unresolved);
    NamesAppend(before, [node]);
    NamesSingleton(node);
  }

  /**
   * Whether `ns`, added one by one to a graph providing `provided`, resolves
   * every node as it arrives: each node's variables are provided by then and
   * its name is new.
   */
  predicate ResolvesInOrder(provided: set<string>, ns: seq<CalculationNode>)
    decreases |ns|
  {
    ns == [] ||
    (ns[0].RequiredVariables() <= provided && ns[0].variableName !in provided
     && ResolvesInOrder(provided + {ns[0].variableName}, ns[1..]))
  }

  /** Adds nodes that resolve as they arrive: they are appended in the order given. */
  method AddInOrder(c: Calculation, ns: seq<CalculationNode>)
    requires c.Valid() && c.unresolved == map[]
    requires ResolvesInOrder(c.providedVariables, ns)
    modifies c
    ensures c.Valid() && c.unresolved == map[] && c.requiredVariables == old(c.requiredVariables)
    ensures c.nodes == old(c.nodes) + ns
  {
    for i := 0 to |ns|
      invariant c.Valid() && c.unresolved == map[] && c.requiredVariables == old(c.requiredVariables)
      invariant c.nodes == old(c.nodes) + ns[..i]
      invariant ResolvesInOrder(c.providedVariables, ns[i..])
    {
      assert ns[i..][1..] == ns[i + 1..];
      AddResolvable(c, ns[i]);
      assert ns[..i + 1] == ns[..i] + [ns[i]];
    }
    assert ns[..|ns|] == ns;
  }

  /** The eleven nodes of the calculation test, each after the nodes it depends on. */
  const levelNodes := [
    CalculationNode("centerX", Constant(123.0)),
    CalculationNode("centerY", Constant(62.0)),
    CalculationNode("centerZ", Constant(-672.0)),
    CalculationNode("horizontalDistancePerLevel", Constant(80.0)),
    CalculationNode("offset", Constant(40.0)),
    CalculationNode("verticalDistancePerLevel", Constant(10.0)),
    CalculationNode("distance", Uses({"x", "centerX", "z", "centerZ"})),
    CalculationNode("actualDistance", Uses({"distance", "offset"})),
    CalculationNode("levelHorizontal", Uses({"actualDistance", "horizontalDistancePerLevel"})),
    CalculationNode("levelVertical", Uses({"centerY", "y", "verticalDistancePerLevel"})),
    CalculationNode("level", Uses({"levelHorizontal", "levelVertical"}))
  ]

  lemma ResolvesFirst(provided: set<string>, n: CalculationNode, ns: seq<CalculationNode>)
    requires n.RequiredVariables() <= provided && n.variableName !in provided
    requires ResolvesInOrder(provided + {n.variableName}, ns)
    ensures ResolvesInOrder(provided, [n] + ns)
  {
    assert ([n] + ns)[1..] == ns;
  }

  /** The test's insertion order resolves every node as it arrives. */
  lemma LevelNodesResolveInOrder()
    ensures ResolvesInOrder({"x", "y", "z"}, levelNodes)
  {
    var p0 := {"x", "y", "z"};
    var p1 := p0 + {"centerX"};
    var p2 := p1 + {"centerY"};
    var p3 := p2 + {"centerZ"};
    var p4 := p3 + {"horizontalDistancePerLevel"};
    var p5 := p4 + {"offset"};
    var p6 := p5 + {"verticalDistancePerLevel"};
    LevelDerivedResolveInOrder(p6);
    ResolvesFirst(p5, levelNodes[5], levelNodes[6..]);
    ResolvesFirst(p4, levelNodes[4], levelNodes[5..]);
    ResolvesFirst(p3, levelNodes[3], levelNodes[4..]);
    ResolvesFirst(p2, levelNodes[2], levelNodes[3..]);
    ResolvesFirst(p1, levelNodes[1], levelNodes[2..]);
    ResolvesFirst(p0, levelNodes[0], levelNodes[1..]);
    assert [levelNodes[0]] + levelNodes[1..] == levelNodes;
  }

  lemma LevelDerivedResolveInOrder(p6: set<string>)
    requires p6 == {"x", "y", "z", "centerX", "centerY", "centerZ",
                    "horizontalDistancePerLevel", "offset", "verticalDistancePerLevel"}
    ensures ResolvesInOrder(p6, levelNodes[6..])
  {
    var p7 := p6 + {"distance"};
    var p8 := p7 + {"actualDistance"};
    var p9 := p8 + {"levelHorizontal"};
    var p10 := p9 + {"levelVertical"};
    ResolvesFirst(p10, levelNodes[10], []);
    assert levelNodes[10..] == [levelNodes[10]] + [];
    ResolvesFirst(p9, levelNodes[9], levelNodes[10..]);
    ResolvesFirst(p8, levelNodes[8], levelNodes[9..]);
    ResolvesFirst(p7, levelNodes[7], levelNodes[8..]);
    ResolvesFirst(p6, levelNodes[6], levelNodes[7..]);
  }

  /** The execution order of the test's nodes, by name. */
  lemma LevelNodesOrder()
    ensures Order(levelNodes) == ["centerX", "centerY", "centerZ", "horizontalDistancePerLevel", "offset",
                                  "verticalDistancePerLevel", "distance", "actualDistance", "levelHorizontal",
                                  "levelVertical", "level"]
  {
  }

  /**
   * The graph of the calculation test: seeds x, y and z and eleven nodes
   * added with every dependency before its dependants. Each node resolves as
   * it is added, so the execution order is the insertion order, nothing is
   * left waiting, and running it from a map binding the seeds binds level.
   */
  method LevelFormulaScenario() returns (order: seq<string>, waiting: bool, bound: set<string>)
    ensures order == ["centerX", "centerY", "centerZ", "horizontalDistancePerLevel", "offset",
                      "verticalDistancePerLevel", "distance", "actualDistance", "levelHorizontal",
                      "levelVertical", "level"]
    ensures !waiting
    ensures "level" in bound
  {
    var c := new Calculation.WithVariables({"x", "y", "z"});
    LevelNodesResolveInOrder();
    AddInOrder(c, levelNodes);
    LevelNodesOrder();
    order := Order(c.nodes);
    waiting := c.HasUnresolvedCalculationNodes();
    var variables := new Variables(map["x" := 0.0, "y" := 0.0, "z" := 0.0]);
    var r := c.ExecuteCalculation(variables);
    assert c.nodes[10].variableName == "level";
    bound := variables.values.Keys;
  }

  const chainA := CalculationNode("A", Uses({"B"}))
  const chainB := CalculationNode("B", Uses({"C"}))
  const chainC := CalculationNode("C", Uses({}))

  /**
   * The pass that follows resolving C, with A and B waiting: B is resolved,
   * and A too exactly when the pass reaches it after B.
   */
  lemma ChainPassOutcome(nodes': seq<CalculationNode>, pending': map<string, CalculationNode>)
    requires OnePass([chainC], map["A" := chainA, "B" := chainB], {"C"}, nodes', pending')
    requires TopologicallyOrdered({}, nodes')
    ensures || (nodes' == [chainC, chainB] && pending'.Keys == {"A"})
            || (nodes' == [chainC, chainB, chainA] && pending'.Keys == {})
  {
    var pending := map["A" := chainA, "B" := chainB];
    assert "B" !in pending';
    if "A" in pending' {
      PassAppendsOne([chainC], pending, {"C"}, nodes', pending', "B");
    } else {
      PassAppendsTwo([chainC], pending, {"C"}, nodes', pending', "A", "B");
      NamesSingleton(chainC);
      assert nodes'[..1] == [chainC];
      assert nodes'[1].RequiredVariables() <= Names(nodes'[..1]);
    }
  }

  /**
   * A needs B and B needs C, both added before C. Adding C resolves B, but
   * the single pass over the waiting nodes resolves A only when it happens
   * to visit B first: either A is left waiting although every variable it
   * needs is provided, or all three are resolved.
   */
  method DependencyChainScenario() returns (order: seq<string>, waiting: set<string>)
    ensures || (order == ["C", "B"] && waiting == {"A"})
            || (order == ["C", "B", "A"] && waiting == {})
  {
    var c := new Calculation();
    var r := c.AddNode(chainA);
    assert c.nodes == [] && c.unresolved == map["A" := chainA];
    r := c.AddNode(chainB);
    assert c.nodes == [] && c.unresolved == map["A" := chainA, "B" := chainB];
    r := c.AddNode(chainC);
    ChainPassOutcome(c.nodes, c.unresolved);
    order := Order(c.nodes);
    waiting := c.unresolved.Keys;
  }

  /**
   * Two nodes providing "A": the first waits for x, the second resolves at
   * once. The duplicate check of addNode looks only at resolved nodes, so
   * the second is accepted; adding x then resolves the first as well, and
   * the execution order holds two nodes providing the same variable.
   */
  method DuplicateNameScenario() returns (resolved: seq<CalculationNode>, accepted: bool)
    ensures accepted
    ensures |resolved| == 2
    ensures resolved[0].variableName == "A" && resolved[1].variableName == "A"
    ensures resolved[0].RequiredVariables() == {} && resolved[1].RequiredVariables() == {"x"}
  {
    var first := CalculationNode("A", Uses({"x"}));
    var second := CalculationNode("A", Uses({}));
    var c := new Calculation();
    var r := c.AddNode(first);
    assert c.nodes == [] && c.unresolved == map["A" := first];
    r := c.AddNode(second);
    accepted := r.Pass?;
    NamesSingleton(second);
    assert c.nodes == [second] + c.nodes[1..];
    NamesAppend([second], c.nodes[1..]);
    PassKeepsBlocked([second], map["A" := first], {"A"}, c.nodes, c.unresolved, {}, "A", "x");
    PassAppendsNone([second], map["A" := first], {"A"}, c.nodes, c.unresolved);
    var s := c.AddVariable("x");
    PassAppendsOne([second], map["A" := first], {"A", "x"}, c.nodes, c.unresolved, "A");
    resolved := c.nodes;
  }
}
