/**
 * The incrementally built dependency graph of derived variables: seed
 * variables, the resolved nodes in execution order, and the nodes still
 * waiting for one of their variables.
 */
module Calculations {
  import opened Results
  import opened Expressions
  import opened CalculationNodes

  /** The names provided by a sequence of nodes. */
  function Names(ns: seq<CalculationNode>): set<string>
  {
    set i | 0 <= i < |ns| :: ns[i].variableName
  }

  /** The provided names in execution order. */
  function Order(ns: seq<CalculationNode>): (names: seq<string>)
    ensures |names| == |ns|
    ensures forall i :: 0 <= i < |ns| ==> names[i] == ns[i].variableName
  {
    seq(|ns|, i requires 0 <= i < |ns| => ns[i].variableName)
  }

  lemma NamesAppend(a: seq<CalculationNode>, b: seq<CalculationNode>)
    ensures Names(a + b) == Names(a) + Names(b)
  {
    forall n | n in Names(a)
      ensures n in Names(a + b)
    {
      var i :| 0 <= i < |a| && a[i].variableName == n;
      assert (a + b)[i].variableName == n;
    }
    forall n | n in Names(a + b)
      ensures n in Names(a) + Names(b)
    {
      var i :| 0 <= i < |a + b| && (a + b)[i].variableName == n;
      if i >= |a| {
        assert b[i - |a|].variableName == n;
      }
    }
    forall n | n in Names(b)
      ensures n in Names(a + b)
    {
      var i :| 0 <= i < |b| && b[i].variableName == n;
      assert (a + b)[i + |a|].variableName == n;
    }
  }

  lemma NamesSingleton(n: CalculationNode)
    ensures Names([n]) == {n.variableName}
  {
    assert [n][0].variableName == n.variableName;
  }

  /**
   * Topological order: every node's required variables are seeds or are
   * provided by a node earlier in the sequence.
   */
  ghost predicate TopologicallyOrdered(seeds: set<string>, ns: seq<CalculationNode>) {
    forall i :: 0 <= i < |ns| ==> ns[i].RequiredVariables() <= seeds + Names(ns[..i])
  }

  lemma TopologicallyOrderedAppend(seeds: set<string>, ns: seq<CalculationNode>, n: CalculationNode)
    requires TopologicallyOrdered(seeds, ns)
    requires n.RequiredVariables() <= seeds + Names(ns)
    ensures TopologicallyOrdered(seeds, ns + [n])
  {
    forall i | 0 <= i < |ns| + 1
      ensures (ns + [n])[i].RequiredVariables() <= seeds + Names((ns + [n])[..i])
    {
      if i < |ns| {
        assert (ns + [n])[..i] == ns[..i];
      } else {
        assert (ns + [n])[..i] == ns;
      }
    }
  }

  lemma TopologicallyOrderedMoreSeeds(seeds: set<string>, more: set<string>, ns: seq<CalculationNode>)
    requires TopologicallyOrdered(seeds, ns)
    requires seeds <= more
    ensures TopologicallyOrdered(more, ns)
  {
  }

  /**
   * Part of one pass of addUnresolvedIfPossible, from the state before it
   * (`nodes`, `pending`, `provided`) to the state reached so far (`nodes'`,
   * `pending'`), with the names in `toVisit` not yet visited: the resolved
   * list only grows at its end, and what it gains are pending nodes, each
   * once, that have left `pending`; every visited node whose variables were
   * all provided when the pass began has been resolved.
   */
  ghost predicate PassProgress(nodes: seq<CalculationNode>, pending: map<string, CalculationNode>, provided: set<string>,
                               toVisit: set<string>, nodes': seq<CalculationNode>, pending': map<string, CalculationNode>)
  {
    && |nodes| <= |nodes'| && nodes'[..|nodes|] == nodes
    && pending'.Keys <= pending.Keys
    && (forall k :: k in pending' ==> pending'[k] == pending[k])
    && (forall j :: |nodes| <= j < |nodes'| ==>
          nodes'[j].variableName in pending && nodes'[j].variableName !in pending'
          && nodes'[j] == pending[nodes'[j].variableName])
    && (forall j, j' :: |nodes| <= j < j' < |nodes'| ==> nodes'[j].variableName != nodes'[j'].variableName)
    && Names(nodes'[|nodes|..]) == pending.Keys - pending'.Keys
    && (forall k :: k in pending && k !in toVisit && pending[k].RequiredVariables() <= provided ==> k !in pending')
  }

  /** A whole pass: every waiting node has been visited. */
  ghost predicate OnePass(nodes: seq<CalculationNode>, pending: map<string, CalculationNode>, provided: set<string>,
                          nodes': seq<CalculationNode>, pending': map<string, CalculationNode>)
  {
    PassProgress(nodes, pending, provided, {}, nodes', pending')
  }

  lemma PassStart(nodes: seq<CalculationNode>, pending: map<string, CalculationNode>, provided: set<string>)
    ensures PassProgress(nodes, pending, provided, pending.Keys, nodes, pending)
  {
    assert nodes[|nodes|..] == [];
  }

  /** Visiting a waiting node that resolves moves it from `pending'` to the end of `nodes'`. */
  lemma PassStepResolved(nodes: seq<CalculationNode>, pending: map<string, CalculationNode>, provided: set<string>,
                         toVisit: set<string>, nodes': seq<CalculationNode>, pending': map<string, CalculationNode>, k: string)
    requires PassProgress(nodes, pending, provided, toVisit, nodes', pending')
    requires k in toVisit && k in pending'
    requires forall key :: key in pending ==> pending[key].variableName == key
    ensures PassProgress(nodes, pending, provided, toVisit - {k}, nodes' + [pending'[k]], pending' - {k})
  {
    var n := pending'[k];
    var nodes'' := nodes' + [n];
    assert nodes''[..|nodes|] == nodes;
    assert nodes''[|nodes|..] == nodes'[|nodes|..] + [n];
    NamesAppend(nodes'[|nodes|..], [n]);
    NamesSingleton(n);
    forall j | |nodes| <= j < |nodes'|
      ensures nodes'[j].variableName != k
    {
      assert nodes'[|nodes|..][j - |nodes|] == nodes'[j];
    }
  }

  /** Visiting a waiting node that does not resolve leaves it waiting. */
  lemma PassStepKept(nodes: seq<CalculationNode>, pending: map<string, CalculationNode>, provided: set<string>,
                     toVisit: set<string>, nodes': seq<CalculationNode>, pending': map<string, CalculationNode>, k: string)
    requires PassProgress(nodes, pending, provided, toVisit, nodes', pending')
    requires k in toVisit && k in pending'
    requires !(pending[k].RequiredVariables() <= provided)
    ensures PassProgress(nodes, pending, provided, toVisit - {k}, nodes', pending')
  {
  }

  /** Nodes with pairwise distinct names provide as many names as there are nodes. */
  lemma {:induction false} NamesDistinctCardinality(s: seq<CalculationNode>)
    requires forall j, j' :: 0 <= j < j' < |s| ==> s[j].variableName != s[j'].variableName
    ensures |Names(s)| == |s|
    decreases |s|
  {
    if s != [] {
      var last := s[|s| - 1];
      var init := s[..|s| - 1];
      NamesDistinctCardinality(init);
      assert s == init + [last];
      NamesAppend(init, [last]);
      NamesSingleton(last);
      forall i | 0 <= i < |init|
        ensures init[i].variableName != last.variableName
      {
        assert init[i] == s[i];
      }
    }
  }

  /** A whole pass appends exactly as many nodes as leave the waiting set. */
  lemma PassCount(nodes: seq<CalculationNode>, pending: map<string, CalculationNode>, provided: set<string>,
                  nodes': seq<CalculationNode>, pending': map<string, CalculationNode>)
    requires OnePass(nodes, pending, provided, nodes', pending')
    ensures |nodes'| - |nodes| == |pending.Keys - pending'.Keys|
  {
    var suffix := nodes'[|nodes|..];
    forall j, j' | 0 <= j < j' < |suffix|
      ensures suffix[j].variableName != suffix[j'].variableName
    {
      assert suffix[j] == nodes'[|nodes| + j] && suffix[j'] == nodes'[|nodes| + j'];
    }
    NamesDistinctCardinality(suffix);
  }

  lemma NamesPrefix(ns: seq<CalculationNode>, j: nat)
    requires j <= |ns|
    ensures Names(ns[..j]) <= Names(ns)
  {
    forall n | n in Names(ns[..j])
      ensures n in Names(ns)
    {
      var i :| 0 <= i < j && ns[..j][i].variableName == n;
      assert ns[i].variableName == n;
    }
  }

  /**
   * A waiting node that needs a variable no seed and no resolved node
   * provides is still waiting after the pass.
   */
  lemma PassKeepsBlocked(nodes: seq<CalculationNode>, pending: map<string, CalculationNode>, provided: set<string>,
                         nodes': seq<CalculationNode>, pending': map<string, CalculationNode>,
                         seeds: set<string>, k: string, v: string)
    requires OnePass(nodes, pending, provided, nodes', pending')
    requires TopologicallyOrdered(seeds, nodes')
    requires k in pending && v in pending[k].RequiredVariables() && v !in seeds + Names(nodes')
    ensures k in pending'
  {
    var suffix := nodes'[|nodes|..];
    forall i | 0 <= i < |suffix|
      ensures suffix[i].variableName != k
    {
      var j := |nodes| + i;
      assert suffix[i] == nodes'[j];
      assert nodes'[j].RequiredVariables() <= seeds + Names(nodes'[..j]);
      NamesPrefix(nodes', j);
    }
    assert k !in Names(suffix);
  }

  /** A pass that resolves nothing leaves the resolved list and the waiting set alone. */
  lemma PassAppendsNone(nodes: seq<CalculationNode>, pending: map<string, CalculationNode>, provided: set<string>,
                        nodes': seq<CalculationNode>, pending': map<string, CalculationNode>)
    requires OnePass(nodes, pending, provided, nodes', pending')
    requires pending'.Keys == pending.Keys
    ensures nodes' == nodes && pending' == pending
  {
    PassCount(nodes, pending, provided, nodes', pending');
    assert pending.Keys - pending'.Keys == {};
    assert nodes' == nodes'[..|nodes|];
  }

  /** A pass that resolves one waiting node appends exactly that node. */
  lemma PassAppendsOne(nodes: seq<CalculationNode>, pending: map<string, CalculationNode>, provided: set<string>,
                       nodes': seq<CalculationNode>, pending': map<string, CalculationNode>, k: string)
    requires OnePass(nodes, pending, provided, nodes', pending')
    requires pending.Keys - pending'.Keys == {k}
    ensures nodes' == nodes + [pending[k]] && pending' == pending - {k}
  {
    PassCount(nodes, pending, provided, nodes', pending');
    var n := nodes'[|nodes|];
    assert n.variableName in Names(nodes'[|nodes|..]) by {
      assert nodes'[|nodes|..][0] == n;
    }
    assert nodes' == nodes'[..|nodes|] + [n];
  }

  /** A pass that resolves two waiting nodes appends both, in one of two orders. */
  lemma PassAppendsTwo(nodes: seq<CalculationNode>, pending: map<string, CalculationNode>, provided: set<string>,
                       nodes': seq<CalculationNode>, pending': map<string, CalculationNode>, k: string, k': string)
    requires OnePass(nodes, pending, provided, nodes', pending')
    requires k != k' && pending.Keys - pending'.Keys == {k, k'}
    ensures || nodes' == nodes + [pending[k], pending[k']]
            || nodes' == nodes + [pending[k'], pending[k]]
  {
    PassCount(nodes, pending, provided, nodes', pending');
    var n, n' := nodes'[|nodes|], nodes'[|nodes| + 1];
    assert n.variableName in Names(nodes'[|nodes|..]) && n'.variableName in Names(nodes'[|nodes|..]) by {
      assert nodes'[|nodes|..][0] == n && nodes'[|nodes|..][1] == n';
    }
    assert nodes' == nodes'[..|nodes|] + [n, n'];
  }

  class Calculation {
    var nodes: seq<CalculationNode>
    var providedVariables: set<string>
    var requiredVariables: set<string>
    var unresolved: map<string, CalculationNode>

    /**
     * The class invariant: the provided variables are the seeds plus the
     * names of the resolved nodes, the resolved nodes are in topological
     * order, and each waiting node is filed under its own name (the Java
     * HashSet identifies nodes by name).
     */
    ghost predicate Valid()
      reads this
    {
      && providedVariables == requiredVariables + Names(nodes)
      && TopologicallyOrdered(requiredVariables, nodes)
      && (forall k :: k in unresolved ==> unresolved[k].variableName == k)
    }

    /** Calculation(): no seeds, no nodes. */
    constructor ()
      ensures Valid()
      ensures nodes == [] && unresolved == map[]
      ensures providedVariables == {} && requiredVariables == {}
    {
      nodes := [];
      providedVariables := {};
      requiredVariables := {};
      unresolved := map[];
    }

    /** Calculation(Set): the seeds are both provided and required. */
    constructor WithVariables(seeds: set<string>)
      ensures Valid()
      ensures nodes == [] && unresolved == map[]
      ensures providedVariables == seeds && requiredVariables == seeds
    {
      nodes := [];
      providedVariables := seeds;
      requiredVariables := seeds;
      unresolved := map[];
    }

    /**
     * tryNode: appends the node and provides its name exactly when all its
     * required variables are provided; otherwise changes nothing.
     */
    method TryNode(node: CalculationNode) returns (resolved: bool)
      requires Valid()
      modifies this`nodes, this`providedVariables
      ensures Valid()
      ensures resolved <==> node.RequiredVariables() <= old(providedVariables)
      ensures resolved ==> nodes == old(nodes) + [node]
      ensures resolved ==> providedVariables == old(providedVariables) + {node.variableName}
      ensures !resolved ==> nodes == old(nodes) && providedVariables == old(providedVariables)
    {
      if node.RequiredVariables() <= providedVariables {
        TopologicallyOrderedAppend(requiredVariables, nodes, node);
        NamesAppend(nodes, [node]);
        NamesSingleton(node);
        nodes := nodes + [node];
        providedVariables := providedVariables + {node.variableName};
        return true;
      }
      return false;
    }

    /**
     * addUnresolvedIfPossible: one pass over the waiting nodes, in the
     * unspecified iteration order of the hash set, resolving each node that
     * can be resolved at the moment it is visited. It does not repeat the
     * pass, so a node visited before the node it depends on stays waiting.
     */
    method AddUnresolvedIfPossible()
      requires Valid()
      modifies this`nodes, this`providedVariables, this`unresolved
      ensures Valid()
      ensures OnePass(old(nodes), old(unresolved), old(providedVariables), nodes, unresolved)
    {
      var pending := unresolved.Keys;
      PassStart(nodes, unresolved, providedVariables);
      while pending != {}
        invariant Valid()
        invariant pending <= unresolved.Keys
        invariant old(providedVariables) <= providedVariables
        invariant PassProgress(old(nodes), old(unresolved), old(providedVariables), pending, nodes, unresolved)
        decreases pending
      {
        var k :| k in pending;
        ghost var before, waiting := nodes, unresolved;
        var resolved := TryNode(unresolved[k]);
        if resolved {
          PassStepResolved(old(nodes), old(unresolved), old(providedVariables), pending, before, waiting, k);
          unresolved := unresolved - {k};
        } else {
          PassStepKept(old(nodes), old(unresolved), old(providedVariables), pending, before, waiting, k);
        }
        pending := pending - {k};
      }
    }

    /**
     * addNode: rejects a node whose name some resolved node already
     * provides (waiting nodes are not consulted). A node that cannot be
     * resolved yet is filed as waiting, unless a waiting node of that name
     * exists, and nothing is rescanned; a node that is resolved is appended
     * and followed by one pass over the waiting nodes.
     */
    method AddNode(node: CalculationNode) returns (r: Outcome)
      requires Valid()
      modifies this`nodes, this`providedVariables, this`unresolved
      ensures Valid()
      ensures r.Fail? <==> node.variableName in Names(old(nodes))
      ensures r.Fail? ==> r.error == IllegalArgument("")
      ensures r.Fail? ==> nodes == old(nodes) && providedVariables == old(providedVariables) && unresolved == old(unresolved)
      ensures r.Pass? && !(node.RequiredVariables() <= old(providedVariables)) ==>
                && nodes == old(nodes) && providedVariables == old(providedVariables)
                && unresolved == if node.variableName in old(unresolved) then old(unresolved)
                                 else old(unresolved)[node.variableName := node]
      ensures r.Pass? && node.RequiredVariables() <= old(providedVariables) ==>
                OnePass(old(nodes) + [node], old(unresolved), old(providedVariables) + {node.variableName}, nodes, unresolved)
    {
      if exists i :: 0 <= i < |nodes| && nodes[i].variableName == node.variableName {
        return Fail(IllegalArgument(""));
      }
      var resolved := TryNode(node);
      if !resolved {
        if node.variableName !in unresolved {
          unresolved := unresolved[node.variableName := node];
        }
        return Pass;
      }
      AddUnresolvedIfPossible();
      r := Pass;
    }

    /**
     * addVariable: rejects the empty name; otherwise makes the name both a
     * seed and provided, then makes one pass over the waiting nodes.
     */
    method AddVariable(variable: string) returns (r: Outcome)
      requires Valid()
      modifies this
      ensures Valid()
      ensures r.Fail? <==> variable == ""
      ensures r.Fail? ==> r.error == IllegalArgument("")
      ensures r.Fail? ==> nodes == old(nodes) && providedVariables == old(providedVariables)
                          && requiredVariables == old(requiredVariables) && unresolved == old(unresolved)
      ensures r.Pass? ==> requiredVariables == old(requiredVariables) + {variable}
      ensures r.Pass? ==> OnePass(old(nodes), old(unresolved), old(providedVariables) + {variable}, nodes, unresolved)
    {
      if variable == "" {
        return Fail(IllegalArgument(""));
      }
      TopologicallyOrderedMoreSeeds(requiredVariables, requiredVariables + {variable}, nodes);
      providedVariables := providedVariables + {variable};
      requiredVariables := requiredVariables + {variable};
      AddUnresolvedIfPossible();
      r := Pass;
    }

    /** hasUnresolvedCalculationNodes: whether any node is still waiting. */
    method HasUnresolvedCalculationNodes() returns (waiting: bool)
      ensures waiting <==> unresolved != map[]
    {
      waiting := |unresolved| != 0;
    }

    /**
     * executeCalculation: fails before touching the map when a seed is
     * missing from it; otherwise runs the resolved nodes in order. Thanks to
     * the topological order no node meets an unbound variable, and at the
     * end every provided variable is bound.
     */
    method ExecuteCalculation(variables: Variables) returns (r: Outcome)
      requires Valid()
      modifies variables
      ensures r.Fail? <==> !(requiredVariables <= old(variables.values).Keys)
      ensures r.Fail? ==> r.error == IllegalArgument("missing variables") && variables.values == old(variables.values)
      ensures r.Pass? ==> Execute(nodes, old(variables.values)) == Ok(variables.values)
      ensures r.Pass? ==> variables.values.Keys == old(variables.values).Keys + providedVariables
    {
      if !(requiredVariables <= variables.values.Keys) {
        return Fail(IllegalArgument("missing variables"));
      }
      var i := 0;
      while i < |nodes|
        invariant 0 <= i <= |nodes|
        invariant variables.values.Keys == old(variables.values).Keys + Names(nodes[..i])
        invariant Execute(nodes, old(variables.values)) == Execute(nodes[i..], variables.values)
      {
        assert nodes[..i + 1] == nodes[..i] + [nodes[i]];
        NamesAppend(nodes[..i], [nodes[i]]);
        NamesSingleton(nodes[i]);
        assert nodes[i..][1..] == nodes[i + 1..];
        ghost var before := variables.values;
        assert nodes[i].CalculateVariable(before) == Ok(nodes[i].expression.evaluate(before));
        assert Execute(nodes[i..], before)
            == Execute(nodes[i + 1..], before[nodes[i].variableName := nodes[i].expression.evaluate(before)]);
        var step := nodes[i].CalculateAndAddVariable(variables);
        i := i + 1;
      }
      assert nodes[..|nodes|] == nodes;
      r := Pass;
    }
  }

  /**
   * The value executeCalculation computes: the nodes run in order, each
   * binding its name to its formula's value under the map built so far;
   * the first node with an unbound variable stops the run.
   */
  function Execute(ns: seq<CalculationNode>, values: map<string, real>): Result<map<string, real>>
  {
    if ns == [] then Ok(values)
    else
      match ns[0].CalculateVariable(values)
      case Err(e) => Err(e)
      case Ok(v) => Execute(ns[1..], values[ns[0].variableName := v])
  }

  lemma TopologicallyOrderedTail(seeds: set<string>, ns: seq<CalculationNode>)
    requires ns != [] && TopologicallyOrdered(seeds, ns)
    ensures TopologicallyOrdered(seeds + {ns[0].variableName}, ns[1..])
  {
    forall i | 0 <= i < |ns| - 1
      ensures ns[1..][i].RequiredVariables() <= seeds + {ns[0].variableName} + Names(ns[1..][..i])
    {
      assert ns[..i + 1] == [ns[0]] + ns[1..][..i];
      NamesAppend([ns[0]], ns[1..][..i]);
      NamesSingleton(ns[0]);
    }
  }

  /**
   * Running nodes in topological order from a map that binds every seed
   * never fails, and binds exactly the seeds' map keys plus every node's name.
   */
  lemma {:induction false} ExecuteTopologicallyOrdered(seeds: set<string>, ns: seq<CalculationNode>, values: map<string, real>)
    requires TopologicallyOrdered(seeds, ns)
    requires seeds <= values.Keys
    ensures Execute(ns, values).Ok?
    ensures Execute(ns, values).value.Keys == values.Keys + Names(ns)
    decreases ns
  {
    if ns != [] {
      assert ns[..0] == [];
      var v := ns[0].expression.evaluate(values);
      TopologicallyOrderedTail(seeds, ns);
      ExecuteTopologicallyOrdered(seeds + {ns[0].variableName}, ns[1..], values[ns[0].variableName := v]);
      assert ns == [ns[0]] + ns[1..];
      NamesAppend([ns[0]], ns[1..]);
      NamesSingleton(ns[0]);
    }
  }

  /**
   * A cycle is never resolved: if none of a set of names is a seed and every
   * node providing one of them requires one of them, then no node in a
   * topologically ordered sequence provides any of them.
   */
  lemma {:induction false} CycleNeverResolved(seeds: set<string>, ns: seq<CalculationNode>, cycle: set<string>)
    requires TopologicallyOrdered(seeds, ns)
    requires seeds !! cycle
    requires forall i :: 0 <= i < |ns| && ns[i].variableName in cycle ==> ns[i].RequiredVariables() * cycle != {}
    ensures Names(ns) !! cycle
  {
    if ns != [] {
      var init := ns[..|ns| - 1];
      assert TopologicallyOrdered(seeds, init) by {
        forall i | 0 <= i < |init|
          ensures init[i].RequiredVariables() <= seeds + Names(init[..i])
        {
          assert init[..i] == ns[..i];
        }
      }
      CycleNeverResolved(seeds, init, cycle);
      var last := ns[|ns| - 1];
      assert ns[..|ns| - 1] == init;
      if last.variableName in cycle {
        assert false;
      }
    }
  }
}
