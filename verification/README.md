# DynamicMonsters in Dafny

A model of the computing core of DynamicMonsters, a Bukkit plugin. The
plugin gives spawning monsters a level, a variation and drops, all driven by
formulas over named variables. The model covers the following.

- **Calculations.** `Calculation` is a dependency graph of `CalculationNode`s.
  Each node provides one variable through a formula that requires others. The
  graph keeps its resolved nodes in topological execution order, and nodes that
  cannot be resolved yet wait in a separate set. `executeCalculation` runs the
  resolved nodes over a caller-owned variable map.
- **Weighted choice.** `Variation` and `EntityVariation` round each
  candidate's weight formula to an int. They then draw a number below the total
  and pick the first candidate whose running remainder goes negative. The
  choice is modelled once, in `WeightedSelection`, and both classes use it.
- **Drops.** `DropVariation` gates each drop on its chance formula, then narrows
  amount, damage and data to int, short and byte with overflow failures.
  `generateLoot` keeps only the items that actually dropped.
- **Levels.** `LevelBorder` clamps levels. `AbstractLevelChangeStrategy` turns a
  distance into a level delta: floored steps, an overflow-checked product, then
  the border. `VerticalLevelChangeStrategy` measures height.
- **Distances.** `DistanceMethod` provides the Euclidean and the Chebyshev
  distance.
- **Formula operators.** `AdditionalMathOperations` adds `min`, `max`,
  `randomInt`, `random` and nine 0/1-valued comparison and boolean operators
  to the formula language.

Java exceptions become `Result`/`Outcome` values. Their `Exception` names the
Java exception type and, where the code gives one, its message. Java's
`int`, `short`, `byte` and `long` are subset types of `int`. Each narrowing
cast and the unchecked `int` additions are written out as wrap-around
(`Truncate`). `Math.round` is `floor(x + 1/2)`, saturated to the `long` range.
`Math.toIntExact` and `Math.multiplyExact` fail with "integer overflow". `String.hashCode` and `String.compareTo` work on a
string's UTF-16 code units, so a character outside the Basic Multilingual
Plane counts as its two surrogates (`JavaNumbers.Utf16`). A
formula (an exp4j `Expression`) is the set of variable names it uses plus a
total evaluation function. Randomness is passed in: `nextInt` as a function
parameter, and the drop draws as a sequence of reals.

## Behaviour of the code worth knowing

- **One pass, not a fixpoint.** After a node is resolved, or after a variable
  is added, the graph makes a single pass over the waiting nodes, in the
  hash set's iteration order (`math/Calculation.java:68-74`). A waiting node
  whose dependency is resolved later in the same pass stays waiting. The model
  states the pass exactly (`Calculations.OnePass`) and claims no completeness.
  `CalculationScenarios.DependencyChainScenario` shows both possible outcomes.
- **Duplicates are only checked against resolved nodes.** `addNode` looks for
  a same-named node only among the resolved nodes (`math/Calculation.java:48`).
  A second node whose name is already waiting is accepted. If it resolves at
  once, the first can resolve later as well, and then two resolved nodes
  provide one name (`CalculationScenarios.DuplicateNameScenario`). Because the
  waiting set identifies nodes by name, a same-named node that cannot resolve
  is dropped silently: `HashSet.add` keeps the earlier element.
- **Wrapping total.** The weights' total is an unchecked `int` sum
  (`EntityVariation.java:71`), and the draw's remainder is an unchecked
  `int` subtraction. The model computes both with wrap-around
  (`WeightedSelection.IntSum`, `WeightedSelection.Remainder`). The fairness
  guarantee is proved for non-negative weights whose exact total fits an
  `int`. Outside that case the model states only what the wrapped arithmetic
  does.
- **`calculateVariable`.** The variation and drop classes call
  `CalculationNode.calculateVariable`. That method does not exist in
  `math/CalculationNode.java` as it stands. It is modelled as evaluating the
  formula against the map, with the missing-variables failure of
  `calculateAndAddVariable` (`CalculationNodes.CalculationNode.CalculateVariable`).
- **A zero step.** With `distancePerChange == 0`, a distance within the offset
  gives 0 / 0, which is NaN and rounds to 0 steps. A distance beyond the offset
  gives infinity, which rounds to the largest `long` and fails
  `Math.toIntExact` (`Levels.Changes`).

## Model

| member | source | states |
|---|---|---|
| `Calculations.Calculation.constructor` | src/main/java/de/minetropolis/monsters/math/Calculation.java:38-39 | An empty graph: no seeds, nothing provided, no resolved and no waiting nodes; the class invariant holds. |
| `Calculations.Calculation.WithVariables` | src/main/java/de/minetropolis/monsters/math/Calculation.java:41-44 | The seeds become both the required and the provided variables, with no nodes and nothing waiting. |
| `Calculations.Calculation.TryNode` | src/main/java/de/minetropolis/monsters/math/Calculation.java:76-83 | The node is appended and its name provided exactly when all its required variables are already provided; otherwise nothing changes. The class invariant (provided = seeds + resolved names, resolved nodes in topological order) is preserved. |
| `Calculations.Calculation.AddUnresolvedIfPossible` | src/main/java/de/minetropolis/monsters/math/Calculation.java:68-74 | One pass over the waiting nodes in an unspecified order: the old execution order is a prefix of the new one, every node appended comes from the waiting set and leaves it, every node whose variables were provided at the start is resolved, and nothing else leaves the waiting set. |
| `Calculations.Calculation.AddNode` | src/main/java/de/minetropolis/monsters/math/Calculation.java:46-56 | Fails exactly when a resolved node already provides the name (waiting nodes are not consulted) and then changes nothing; an unresolvable node waits unless a node of that name already waits, with no rescan; a resolvable node is appended and followed by one pass. |
| `Calculations.Calculation.AddVariable` | src/main/java/de/minetropolis/monsters/math/Calculation.java:58-66 | Rejects the empty name and changes nothing; otherwise the name joins the seeds and the provided variables, and one pass over the waiting nodes follows. |
| `Calculations.Calculation.HasUnresolvedCalculationNodes` | src/main/java/de/minetropolis/monsters/math/Calculation.java:92-94 | True exactly when some node is waiting. |
| `Calculations.Calculation.ExecuteCalculation` | src/main/java/de/minetropolis/monsters/math/Calculation.java:85-90 | Fails with "missing variables" and leaves the map alone exactly when a seed is unbound; otherwise the map becomes the result of running the resolved nodes in order, and its keys grow by exactly the provided variables. |
| `Calculations.ExecuteTopologicallyOrdered` | src/main/java/de/minetropolis/monsters/math/Calculation.java:85-90 | Running nodes in topological order from a map that binds every seed never fails and binds the map's keys plus every node's name. |
| `Calculations.TopologicallyOrderedAppend` | src/main/java/de/minetropolis/monsters/math/Calculation.java:76-83 | Appending a node whose variables are all provided keeps the resolved list topologically ordered. |
| `Calculations.CycleNeverResolved` | src/main/java/de/minetropolis/monsters/math/Calculation.java:76-83 | A set of names that are not seeds and whose providers all require one of them is never provided by a topologically ordered list: a dependency cycle stays waiting. |
| `Calculations.PassKeepsBlocked` | src/main/java/de/minetropolis/monsters/math/Calculation.java:68-74 | After a pass, a waiting node that requires a variable neither seeded nor provided by a resolved node is still waiting. |
| `Calculations.PassAppendsNone` | src/main/java/de/minetropolis/monsters/math/Calculation.java:68-74 | A pass in which no waiting node was resolved leaves the resolved list and the waiting set unchanged. |
| `Calculations.PassAppendsOne` | src/main/java/de/minetropolis/monsters/math/Calculation.java:68-74 | A pass that removed exactly one waiting node appended exactly that node. |
| `Calculations.PassAppendsTwo` | src/main/java/de/minetropolis/monsters/math/Calculation.java:68-74 | A pass that removed exactly two waiting nodes appended both, in one of the two orders. |
| `CalculationScenarios.LevelFormulaScenario` | src/test/java/de/minetropolis/monsters/math/CalculationNodeTest.java:44-69 | The eleven level formulas of the test, added in dependency order to a graph seeded with x, y and z, resolve in insertion order with nothing left waiting, and executing them binds "level". |
| `CalculationScenarios.DependencyChainScenario` | src/main/java/de/minetropolis/monsters/math/Calculation.java:68-74 | With A needing B and B needing C, both added before C, adding C leaves either A waiting (execution order C, B) or nothing waiting (C, B, A): the single pass depends on the iteration order. |
| `CalculationScenarios.DuplicateNameScenario` | src/main/java/de/minetropolis/monsters/math/Calculation.java:46-56 | A second node named "A", added while the first waits, is accepted; once x is added both are resolved, so two resolved nodes provide the same name. |
| `CalculationScenarios.AddInOrder` | src/main/java/de/minetropolis/monsters/math/Calculation.java:46-56 | Nodes that each resolve on arrival are appended in the order given, with nothing left waiting. |
| `CalculationNodes.CalculationNode.ProvidedVariable` | src/main/java/de/minetropolis/monsters/math/CalculationNode.java:44-46 | The name the node was built with. |
| `CalculationNodes.CalculationNode.RequiredVariables` | src/main/java/de/minetropolis/monsters/math/CalculationNode.java:48-50 | Exactly the variable names the formula uses. |
| `CalculationNodes.CalculationNode.CalculateVariable` | src/main/java/de/minetropolis/monsters/math/CalculationNode.java:37-41 | The formula's value under the map when every required variable is bound, else the "missing variables" failure. |
| `CalculationNodes.CalculationNode.CalculateAndAddVariable` | src/main/java/de/minetropolis/monsters/math/CalculationNode.java:37-42 | Fails and leaves the map unchanged exactly when a required variable is unbound; otherwise changes the map only at the provided name, which is set to the formula's value. |
| `CalculationNodes.CalculationNode.CompareTo` | src/main/java/de/minetropolis/monsters/math/CalculationNode.java:52-67 | A "cyclic dependency" failure exactly when each node requires the other's name; -1 or 1 when only one requires the other; otherwise `String.compareTo` of the names over their UTF-16 code units: negative exactly when the first name's units come first lexicographically (a proper prefix, or a smaller unit at the first difference), 0 exactly for equal names. |
| `CalculationNodes.CalculationNode.HashCode` | src/main/java/de/minetropolis/monsters/math/CalculationNode.java:69-74 | 71 * 3 plus the name's `String.hashCode` (over its UTF-16 code units) in int arithmetic; 213 for the empty name. |
| `JavaNumbers.StringHash` | src/main/java/de/minetropolis/monsters/math/CalculationNode.java:72 | `String.hashCode`: 31 * h + u over the UTF-16 code units in int arithmetic; 0 for the empty string. |
| `JavaNumbers.Utf16` | src/main/java/de/minetropolis/monsters/math/CalculationNode.java:72 | A string's UTF-16 code units: at least one and at most two per character, each below 0x10000, and the characters themselves for a string inside the Basic Multilingual Plane. |
| `JavaNumbers.Utf16Injective` | src/main/java/de/minetropolis/monsters/math/CalculationNode.java:64 | Distinct strings have distinct UTF-16 encodings. |
| `JavaNumbers.SurrogatePairHash` | src/main/java/de/minetropolis/monsters/math/CalculationNode.java:72 | U+1F600 is the surrogate pair 0xD83D 0xDE00 and hashes to 31 * 0xD83D + 0xDE00. |
| `JavaNumbers.CompareStrings` | src/main/java/de/minetropolis/monsters/math/CalculationNode.java:64 | `String.compareTo`: negative exactly when the first string's code units come first lexicographically, 0 exactly on equal strings. |
| `JavaNumbers.CompareUnitsSign` | src/main/java/de/minetropolis/monsters/math/CalculationNode.java:64 | The code-unit comparison is negative exactly when the first sequence is a proper prefix of the second or has the smaller unit at the first difference. |
| `JavaNumbers.CompareStringsAntisymmetric` | src/main/java/de/minetropolis/monsters/math/CalculationNode.java:64 | Swapping the strings negates the comparison. |
| `JavaNumbers.SurrogatesSortBelowHighCharacters` | src/main/java/de/minetropolis/monsters/math/CalculationNode.java:64 | U+FFFF compares after U+1F600, because the comparison is over code units. |
| `CalculationNodes.EqualNodesHashEqually` | src/main/java/de/minetropolis/monsters/math/CalculationNode.java:69-89 | Equality is by name and symmetric, and equal nodes hash equally. |
| `CalculationNodes.CompareToAntisymmetric` | src/main/java/de/minetropolis/monsters/math/CalculationNode.java:52-67 | Wherever compareTo answers, the reversed comparison answers with the negated value. |
| `WeightedSelection.Weight` | src/main/java/de/minetropolis/monsters/EntityVariation.java:69 | A variation's weight: the formula's value rounded to a long, failing with "integer overflow" outside the int range, or the formula's failure. |
| `WeightedSelection.Weights` | src/main/java/de/minetropolis/monsters/EntityVariation.java:67-72 | All weights in order when each can be computed; otherwise the failure of the first one that cannot. |
| `WeightedSelection.ComputeWeights` | src/main/java/de/minetropolis/monsters/EntityVariation.java:65-72 | The weights as above, and the total as the wrapping int sum of the weights. |
| `WeightedSelection.PickIndex` | src/main/java/de/minetropolis/monsters/EntityVariation.java:74-80 | The first index at which the int remainder of the draw becomes negative, or none. Without wrap-around this is exactly the index whose running sum first exceeds the draw, and none means no index has one. |
| `WeightedSelection.FirstNegativeSelects` | src/main/java/de/minetropolis/monsters/EntityVariation.java:74-80 | Without wrap-around, the first negative remainder is at the index the draw falls to, and no negative remainder means the draw falls to no index. |
| `WeightedSelection.SelectWeighted` | src/main/java/de/minetropolis/monsters/EntityVariation.java:61-81 | The failure of the first weight, "bound must be positive" when the int total is not positive, or the first-negative index for the draw nextInt(total). With non-negative weights whose total is positive and fits an int, exactly one candidate is chosen: the one the draw falls to, with a positive weight. |
| `WeightedSelection.SelectionExists` | src/main/java/de/minetropolis/monsters/EntityVariation.java:73-80 | For non-negative weights and a draw in [0, total), exactly one index is selected. |
| `WeightedSelection.SelectedWeightPositive` | src/main/java/de/minetropolis/monsters/EntityVariation.java:74-76 | A selected candidate has a positive weight, so a weight-0 candidate is never chosen. |
| `WeightedSelection.SelectionProportional` | src/main/java/de/minetropolis/monsters/EntityVariation.java:73-80 | Of the draws in [0, total), exactly weight-of-i select candidate i: the choice is proportional to the weights. |
| `WeightedSelection.NonNegativeNoWrap` | src/main/java/de/minetropolis/monsters/EntityVariation.java:71 | With non-negative weights whose total fits an int, no running sum or remainder wraps around. |
| `WeightedSelection.RemainderExact` | src/main/java/de/minetropolis/monsters/EntityVariation.java:75 | Without wrap-around, the int remainder after k weights is the draw minus the sum of the first k weights. |
| `Drops.DropVariation.New` | src/main/java/de/minetropolis/monsters/DropVariation.java:43-50 | Rejects the empty name; otherwise a fresh drop with the name, chance formula and material, and no amount, damage or data formula. |
| `Drops.DropVariation.SetDropChance` | src/main/java/de/minetropolis/monsters/DropVariation.java:68-70 | Replaces the chance formula and nothing else. |
| `Drops.DropVariation.SetAmount` | src/main/java/de/minetropolis/monsters/DropVariation.java:72-74 | Sets the amount formula and nothing else. |
| `Drops.DropVariation.SetDamage` | src/main/java/de/minetropolis/monsters/DropVariation.java:76-78 | Sets the damage formula and nothing else. |
| `Drops.DropVariation.SetData` | src/main/java/de/minetropolis/monsters/DropVariation.java:80-82 | Sets the data formula and nothing else. |
| `Drops.DropVariation.SetType` | src/main/java/de/minetropolis/monsters/DropVariation.java:84-86 | Sets the material and nothing else. |
| `Drops.DropVariation.CalculateDropChance` | src/main/java/de/minetropolis/monsters/DropVariation.java:88-90 | The chance formula's value, or its missing-variables failure. |
| `Drops.DropVariation.CalculateAmount` | src/main/java/de/minetropolis/monsters/DropVariation.java:92-94 | The rounded amount, failing with "integer overflow" exactly outside the int range; a null pointer when unset. |
| `Drops.DropVariation.CalculateDamage` | src/main/java/de/minetropolis/monsters/DropVariation.java:96-102 | The rounded damage, failing with "short overflow" exactly outside [-32768, 32767]; a null pointer when unset. |
| `Drops.DropVariation.CalculateData` | src/main/java/de/minetropolis/monsters/DropVariation.java:104-110 | The rounded data value, failing with "integer overflow" exactly outside [-128, 127]; a null pointer when unset. |
| `Drops.DropVariation.GenerateItemByChance` | src/main/java/de/minetropolis/monsters/DropVariation.java:112-122 | Nothing exactly when the draw exceeds the chance, with amount, damage and data not evaluated; otherwise the item with the material and the three narrowed values, or the failure of the first of amount, damage and data that fails. |
| `Drops.DropVariation.HashCode` | src/main/java/de/minetropolis/monsters/DropVariation.java:124-129 | 53 * 5 plus the name's `String.hashCode` (over its UTF-16 code units) in int arithmetic; 265 for the empty name. |
| `Drops.EqualDropsHashEqually` | src/main/java/de/minetropolis/monsters/DropVariation.java:124-144 | Equality is by name and symmetric, and equal drops hash equally. |
| `Drops.CertainDropNeverEmpty` | src/main/java/de/minetropolis/monsters/DropVariation.java:112-115 | A chance of at least 1 with a draw in [0, 1) never yields nothing. |
| `Drops.NegativeChanceNeverDrops` | src/main/java/de/minetropolis/monsters/DropVariation.java:112-118 | A negative chance with a non-negative draw always yields nothing, so no amount, damage or data failure can occur. |
| `Drops.ItemsByChance` | src/main/java/de/minetropolis/monsters/DropVariation.java:52-54 | Each drop's result for its own draw, in order, or a failure exactly when some drop fails. |
| `Drops.GenerateLoot` | src/main/java/de/minetropolis/monsters/DropVariation.java:52-58 | Succeeds exactly when every drop does; then the loot is the drops' results in drop order with the empty ones left out, each item occurring exactly as many times as drops yielded it, and at most one item per drop. |
| `Drops.Present` | src/main/java/de/minetropolis/monsters/DropVariation.java:55-57 | The present items in order: an item is kept exactly when some option holds it, never more items than options, all of them when every option is present, none when none is. |
| `Drops.PresentCount` | src/main/java/de/minetropolis/monsters/DropVariation.java:55-57 | An item is kept as often as the options hold it. |
| `Drops.PresentAppend` | src/main/java/de/minetropolis/monsters/DropVariation.java:55-57 | The items of two option lists in a row are the first list's items followed by the second's, so the filter keeps the order. |
| `Drops.PresentSingle` | src/main/java/de/minetropolis/monsters/DropVariation.java:55-57 | A single present option gives its item, an empty one nothing. |
| `Drops.LootCount` | src/main/java/de/minetropolis/monsters/DropVariation.java:52-58 | The number of times an item occurs in the loot is the number of drops that yielded it. |
| `Drops.LootOfOneDrop` | src/main/java/de/minetropolis/monsters/DropVariation.java:52-58 | The loot of one drop is its item when it yields one, and empty otherwise. |
| `Drops.LootOfCertainDrops` | src/main/java/de/minetropolis/monsters/DropVariation.java:52-58 | When every drop yields an item, the loot has one item per drop. |
| `Drops.LootOfMissedDrops` | src/main/java/de/minetropolis/monsters/DropVariation.java:52-58 | When no drop passes its chance, the loot is empty. |
| `Variations.Variation.New` | src/main/java/de/minetropolis/monsters/Variation.java:42-48 | Rejects the empty name; otherwise a fresh variation with the weight formula, no name pattern and a hidden name. |
| `Variations.Variation.CalculateWeight` | src/main/java/de/minetropolis/monsters/Variation.java:73-75 | The weight formula's value, or its missing-variables failure. |
| `Variations.Variation.AddAttribute` | src/main/java/de/minetropolis/monsters/Variation.java:77-79 | Always fails as unsupported. |
| `Variations.Variation.AddEquipment` | src/main/java/de/minetropolis/monsters/Variation.java:81-83 | Always fails as unsupported. |
| `Variations.Variation.AddDrop` | src/main/java/de/minetropolis/monsters/Variation.java:85-87 | Always fails as unsupported. |
| `Variations.Variation.SetWeight` | src/main/java/de/minetropolis/monsters/Variation.java:89-91 | Replaces the weight formula and nothing else. |
| `Variations.Variation.SetNamePattern` | src/main/java/de/minetropolis/monsters/Variation.java:93-95 | Sets the name pattern and nothing else. |
| `Variations.Variation.SetNameVisible` | src/main/java/de/minetropolis/monsters/Variation.java:97-99 | Sets the name visibility and nothing else. |
| `Variations.Variation.ModifyEntity` | src/main/java/de/minetropolis/monsters/Variation.java:101-106 | Renames the entity only when a name pattern is set, always sets its name visibility, and leaves its tags alone. |
| `Variations.Variation.HashCode` | src/main/java/de/minetropolis/monsters/Variation.java:115-120 | 97 * 5 plus the name's `String.hashCode` (over its UTF-16 code units) in int arithmetic; 485 for the empty name. |
| `Variations.EqualVariationsHashEqually` | src/main/java/de/minetropolis/monsters/Variation.java:115-135 | Equality is by name and symmetric, and equal variations hash equally. |
| `Variations.Variation.ModifyEntityWeighted` | src/main/java/de/minetropolis/monsters/Variation.java:50-67 | The outcome of the weighted selection over the variations' weight formulas, with its fairness guarantee; only the chosen variation modifies the entity, which is unchanged on a failure or when none is chosen. |
| `Variations.EntityVariation.New` | src/main/java/de/minetropolis/monsters/EntityVariation.java:52-59 | Rejects the empty name; otherwise a fresh variation with the weight formula and no experience formula, drops, attributes or name pattern. |
| `Variations.EntityVariation.CalculateWeight` | src/main/java/de/minetropolis/monsters/EntityVariation.java:87-89 | The weight formula's value, or its missing-variables failure. |
| `Variations.EntityVariation.AddAttribute` | src/main/java/de/minetropolis/monsters/EntityVariation.java:91-93 | Maps the attribute to a node providing its name followed by "_VALUE", replacing any earlier formula, and changes nothing else. |
| `Variations.EntityVariation.AddEquipment` | src/main/java/de/minetropolis/monsters/EntityVariation.java:95-97 | Always fails as unsupported. |
| `Variations.EntityVariation.AddDrop` | src/main/java/de/minetropolis/monsters/EntityVariation.java:99-101 | Adds the drop unless one of the same name is present, in which case nothing changes; the drop set keeps distinct names. |
| `Variations.EntityVariation.SetWeight` | src/main/java/de/minetropolis/monsters/EntityVariation.java:103-105 | Replaces the weight formula and nothing else. |
| `Variations.EntityVariation.SetExpDrop` | src/main/java/de/minetropolis/monsters/EntityVariation.java:107-109 | Sets the experience formula, a node providing "experience", and nothing else. |
| `Variations.EntityVariation.SetNamePattern` | src/main/java/de/minetropolis/monsters/EntityVariation.java:111-113 | Sets the name pattern and nothing else. |
| `Variations.EntityVariation.SetNameVisible` | src/main/java/de/minetropolis/monsters/EntityVariation.java:115-117 | Sets the name visibility and nothing else. |
| `Variations.EntityVariation.ModifyEntity` | src/main/java/de/minetropolis/monsters/EntityVariation.java:119-123 | Renames the entity only when a name pattern is set, always sets its name visibility, and leaves its tags alone. |
| `Variations.EntityVariation.HashCode` | src/main/java/de/minetropolis/monsters/EntityVariation.java:139-144 | 97 * 5 plus the name's `String.hashCode` (over its UTF-16 code units) in int arithmetic; 485 for the empty name. |
| `Variations.EqualEntityVariationsHashEqually` | src/main/java/de/minetropolis/monsters/EntityVariation.java:139-159 | Equality is by name and symmetric, and equal variations hash equally. |
| `Variations.EntityVariation.ModifyEntityWeighted` | src/main/java/de/minetropolis/monsters/EntityVariation.java:61-81 | An entity tagged "Custom" is left alone with nothing computed; otherwise the outcome of the weighted selection with its fairness guarantee, and only the chosen variation modifies the entity. |
| `Levels.NewLevelBorder` | src/main/java/de/minetropolis/monsters/configuration/LevelBorder.java:45-53 | Fails with "minimum greater than maximum" exactly when the minimum exceeds the maximum; otherwise stores the bounds and the flags. |
| `Levels.DefaultBorder` | src/main/java/de/minetropolis/monsters/configuration/LevelBorder.java:33-35 | The whole int range, with neither bound flagged. |
| `Levels.OptionalBorder` | src/main/java/de/minetropolis/monsters/configuration/LevelBorder.java:37-39 | An absent bound becomes the extreme int and is not flagged; it fails only when both bounds are present and out of order. |
| `Levels.BoundedBorder` | src/main/java/de/minetropolis/monsters/configuration/LevelBorder.java:41-43 | Both bounds flagged; it fails exactly when they are out of order. |
| `Levels.LevelBorder.Fit` | src/main/java/de/minetropolis/monsters/configuration/LevelBorder.java:55-63 | The value clamped into the border: the minimum below it, the maximum above it, the value itself when already inside, and always within the bounds. |
| `Levels.FitIdempotent` | src/main/java/de/minetropolis/monsters/configuration/LevelBorder.java:55-63 | Fitting twice is fitting once. |
| `Levels.FitMonotone` | src/main/java/de/minetropolis/monsters/configuration/LevelBorder.java:55-63 | Fit preserves order. |
| `Levels.DefaultFitIdentity` | src/main/java/de/minetropolis/monsters/configuration/LevelBorder.java:33-35 | The unbounded border leaves every int unchanged. |
| `Levels.FitIgnoresFlags` | src/main/java/de/minetropolis/monsters/configuration/LevelBorder.java:50-52 | The flags do not affect fit. |
| `Levels.Changes` | src/main/java/de/minetropolis/monsters/configuration/AbstractLevelChangeStrategy.java:62-65 | The number of steps: 0 when \|distance\| is within the offset; with a zero step and a distance beyond the offset, an "integer overflow" failure; otherwise the floor of (\|distance\| - offset) / step, failing exactly outside the int range. |
| `Levels.CalculateLevelDelta` | src/main/java/de/minetropolis/monsters/configuration/AbstractLevelChangeStrategy.java:61-67 | The steps times the levels per step, failing exactly when the product leaves the int range, then fitted into the border; the border's fit of 0 within the offset; always within the border. |
| `Levels.LevelDeltaIgnoresSign` | src/main/java/de/minetropolis/monsters/configuration/AbstractLevelChangeStrategy.java:63 | The sign of the raw distance does not matter. |
| `Levels.ChangesMonotone` | src/main/java/de/minetropolis/monsters/configuration/AbstractLevelChangeStrategy.java:63-65 | With a positive step, a larger \|distance\| never gives fewer steps. |
| `Levels.Vertical` | src/main/java/de/minetropolis/monsters/configuration/VerticalLevelChangeStrategy.java:25-27 | Offset 0 and the unbounded border. |
| `Levels.VerticalWithOffset` | src/main/java/de/minetropolis/monsters/configuration/VerticalLevelChangeStrategy.java:29-31 | The given offset and the unbounded border. |
| `Levels.VerticalWithBorder` | src/main/java/de/minetropolis/monsters/configuration/VerticalLevelChangeStrategy.java:33-35 | Offset 0 and the given border. |
| `Levels.VerticalLevelDelta` | src/main/java/de/minetropolis/monsters/configuration/VerticalLevelChangeStrategy.java:41-44 | The strategy's level delta for the height of the center above the target: the border's fit of 0 within the offset, and always within the border. |
| `Levels.VerticalDistance` | src/main/java/de/minetropolis/monsters/configuration/VerticalLevelChangeStrategy.java:41-44 | The height of the center above the target. |
| `Levels.VerticalIgnoresXZ` | src/main/java/de/minetropolis/monsters/configuration/VerticalLevelChangeStrategy.java:43 | The x and z coordinates do not affect the vertical level delta. |
| `Levels.VerticalMirror` | src/main/java/de/minetropolis/monsters/configuration/VerticalLevelChangeStrategy.java:41-44 | Targets the same height above and below the center get the same level delta. |
| `Levels.UnboundedVerticalDelta` | src/main/java/de/minetropolis/monsters/configuration/VerticalLevelChangeStrategy.java:25-27 | Without offset or border, the vertical level delta is exactly the floored steps times the levels per step. |
| `Distance.DistanceOf` | src/main/java/de/minetropolis/monsters/DistanceMethod.java:25-37 | MINECRAFT: the larger of \|dx\| and \|dz\|. PYTHAGORAS with a true square root: the non-negative number whose square is dx² + dz². |
| `Distance.DistanceBetween` | src/main/java/de/minetropolis/monsters/DistanceMethod.java:39-41 | The two-argument distance of the coordinate differences, target minus origin. |
| `Distance.DistanceNonNegative` | src/main/java/de/minetropolis/monsters/DistanceMethod.java:25-26 | Both metrics are non-negative. |
| `Distance.DistanceSymmetric` | src/main/java/de/minetropolis/monsters/DistanceMethod.java:25-26 | Swapping the two points changes neither distance. |
| `Distance.DistanceToItself` | src/main/java/de/minetropolis/monsters/DistanceMethod.java:25-26 | A point is at distance 0 from itself under both metrics. |
| `Distance.MinecraftAtMostPythagoras` | src/main/java/de/minetropolis/monsters/DistanceMethod.java:25-26 | The Chebyshev distance never exceeds the Euclidean one. |
| `MathOperations.Min` | src/main/java/de/minetropolis/monsters/math/AdditionalMathOperations.java:31-36 | The smaller argument. |
| `MathOperations.Max` | src/main/java/de/minetropolis/monsters/math/AdditionalMathOperations.java:38-43 | The larger argument. |
| `MathOperations.RandomInt` | src/main/java/de/minetropolis/monsters/math/AdditionalMathOperations.java:45-52 | A whole number in [0, round(n)); "integer overflow" when round(n) leaves the int range, "bound must be positive" when it is not positive. |
| `MathOperations.Random` | src/main/java/de/minetropolis/monsters/math/AdditionalMathOperations.java:54-61 | A number in [0, 1). |
| `MathOperations.RandomIntOfFive` | src/test/java/de/minetropolis/monsters/math/AdditionalMathOperationsTest.java:46-55 | randomInt(5) is one of 0, 1, 2, 3 and 4. |
| `MathOperations.Operator.Symbol` | src/main/java/de/minetropolis/monsters/math/AdditionalMathOperations.java:63-124 | The declared symbols >, >=, <, <=, ==, !=, &, \| and ~: one or two characters, two exactly for >=, <=, == and !=, whose second character is '='. |
| `MathOperations.SymbolIdentifiesOperator` | src/main/java/de/minetropolis/monsters/math/AdditionalMathOperations.java:63-124 | No two of the nine operators share a symbol. |
| `MathOperations.Operator.Arity` | src/main/java/de/minetropolis/monsters/math/AdditionalMathOperations.java:63-124 | One operand for ~, two for every other operator. |
| `MathOperations.Operator.Precedence` | src/main/java/de/minetropolis/monsters/math/AdditionalMathOperations.java:63-124 | The declared precedences: 250 for the comparisons, 200 for ~, 125 for \|, 120 for &. |
| `MathOperations.Apply` | src/main/java/de/minetropolis/monsters/math/AdditionalMathOperations.java:63-124 | Every operator yields exactly 0 or 1. |
| `MathOperations.ComparisonsMirror` | src/main/java/de/minetropolis/monsters/math/AdditionalMathOperations.java:63-89 | a > b is b < a, and a >= b is b <= a. |
| `MathOperations.ComparisonsComplement` | src/main/java/de/minetropolis/monsters/math/AdditionalMathOperations.java:63-89 | a > b is 1 minus a <= b, and a < b is 1 minus a >= b. |
| `MathOperations.EqualityTolerance` | src/main/java/de/minetropolis/monsters/math/AdditionalMathOperations.java:91-103 | == is 1 exactly when \|a - b\| <= 1e-9, != is its complement, and == is symmetric. |
| `MathOperations.EqualityNotTransitive` | src/main/java/de/minetropolis/monsters/math/AdditionalMathOperations.java:91-96 | == is not transitive: 0 == 1e-9 and 1e-9 == 2e-9, but not 0 == 2e-9. |
| `MathOperations.BooleanThreshold` | src/main/java/de/minetropolis/monsters/math/AdditionalMathOperations.java:105-124 | & is 1 exactly when both operands are at least 1, \| when one is, ~ when its operand is below 1. |
| `MathOperations.DoubleNot` | src/main/java/de/minetropolis/monsters/math/AdditionalMathOperations.java:119-124 | ~~x is 1 exactly when x is at least 1. |
| `MathOperations.DeMorgan` | src/main/java/de/minetropolis/monsters/math/AdditionalMathOperations.java:105-124 | De Morgan's laws hold of ~, & and \|. |
| `MathOperations.TestValues` | src/test/java/de/minetropolis/monsters/math/AdditionalMathOperationsTest.java:34-150 | The values the min, max and operator tests expect. |
## Left out

- Null arguments: `Objects.requireNonNull` checks and null names,
  expressions, materials, plugins and borders are not representable. An unset
  amount, damage or data formula is `None` and fails as a null pointer.
- `Calculations.Calculation.ExecuteCalculation`, `Calculations.ExecuteTopologicallyOrdered`,
  `CalculationNodes.CalculationNode.CalculateAndAddVariable`: a formula's
  evaluation is total here, so a formula that throws part-way through a run
  (for instance `randomInt` with a bound that rounds to 0 or below), and the
  partly updated map it leaves behind, are not modelled. Failures come only
  from unbound variables.
- Formula parsing and evaluation belong to exp4j. A formula is an opaque set of
  names with an evaluation function, so numeric results of the tests (level
  14, distances) are not modelled.
- IEEE-754 arithmetic: reals are exact. NaN, infinities, `-0.0` and
  rounding of `double` operations are not modelled, except for the zero-step
  case of the level delta. Java's `1e-9` is the exact decimal.
- `Math.sqrt` is a parameter of the Euclidean distance. Its properties are
  assumed only where a lemma requires `Distance.IsSquareRoot`.
- `java.util.Random`: `nextInt` and the drop draws are parameters.
  `randomInt` and `random` choose nondeterministically within their ranges.
  `nextInt`'s own uniformity is not modelled. `WeightedSelection.SelectionProportional`
  counts the draws that select each candidate instead.
- Hash set and hash map iteration order: the variations passed to the
  weighted choice and the drops passed to `generateLoot` are sequences in
  whatever order the caller's collection yields them, and the waiting nodes
  are visited in a nondeterministic order.
- `Variations.EntityVariation.AddDrop`: the `drops` field of an entity
  variation is a hash set in the code, but the model keeps it as a sequence in
  insertion order; hash-bucket order is not modelled, and no modelled member
  reads the order of that field.
- `Variations.EntityVariation.ModifyEntity`: models only the renaming and the
  name visibility. Left out are the death-data metadata, attribute base values
  and health that `EntityVariation.java:125-129` sets through Bukkit, along
  with the failures of computing them: an unset experience formula, missing
  variables, `int` overflow of the experience, and drop failures.
- `Variations.EntityVariation.ModifyEntityWeighted`: for the same reason,
  does not model a failure raised inside the chosen variation's
  `modifyEntity`.
- `generateNameFromPattern`: its `replaceAll` templating is the parameter
  `render`, a function of the pattern and the variation's name, with the level
  and entity type fixed by the caller.
- The plugin reference of `EntityVariation` and the getters `getName`,
  `getType` and `toString`: these carry no logic.
- The four-argument `VerticalLevelChangeStrategy` constructor is
  `Levels.VerticalWithOffsetAndBorder`, which only stores its arguments.
- The `FUNCTIONS`/`OPERATORS` lists, their getters, and the private
  constructor of `AdditionalMathOperations`: registration with exp4j is not
  modelled. The operators' symbols, arities and precedences are.
- Configuration loading, server event handling, the equipment and loot-table
  wrappers, and `Hotspot` are not part of this model.
