/**
 * Monster variations: named variants with a weight formula, one of which
 * is chosen by weight for a spawning entity and applied to it. Variation is
 * the older class, EntityVariation the newer one with attributes, drops and
 * an experience formula; both choose through WeightedSelection.
 */
module Variations {
  import opened Results
  import opened JavaNumbers
  import opened Expressions
  import opened CalculationNodes
  import opened WeightedSelection
  import opened Drops

  /** The parts of a spawning Bukkit entity that a variation reads or writes. */
  class Entity {
    var scoreboardTags: set<string>
    var customName: Option<string>
    var customNameVisible: bool

    constructor (scoreboardTags: set<string>)
      ensures this.scoreboardTags == scoreboardTags
      ensures customName.None? && !customNameVisible
    {
      this.scoreboardTags := scoreboardTags;
      customName := None;
      customNameVisible := false;
    }
  }

  /**
   * generateNameFromPattern, which is not modelled: the entity's new name
   * for a name pattern and the variation's name, with the level and the
   * entity's type fixed by the caller.
   */
  type NameRenderer = (string, string) -> string

  /** The custom name after modifyEntity: rendered when a pattern is set, else left as it was. */
  function NameAfter(namePattern: Option<string>, variationName: string, render: NameRenderer,
                     customName: Option<string>): (name: Option<string>)
    ensures namePattern.None? ==> name == customName
    ensures namePattern.Some? ==> name == Some(render(namePattern.value, variationName))
  {
    match namePattern
    case None => customName
    case Some(pattern) => Some(render(pattern, variationName))
  }

  class Variation {
    const variationName: string
    var weightCalculation: CalculationNode
    var nameVisible: bool
    var namePattern: Option<string>

    /** The state after a successful construction: the weight set, no pattern, name hidden. */
    constructor Init(variationName: string, weight: Expression)
      requires variationName != ""
      ensures this.variationName == variationName
      ensures weightCalculation == CalculationNode("weight", weight)
      ensures !nameVisible && namePattern.None?
    {
      this.variationName := variationName;
      weightCalculation := CalculationNode("weight", weight);
      nameVisible := false;
      namePattern := None;
    }

    /** new Variation(name, weight): rejects the empty name. */
    static method New(variationName: string, weight: Expression) returns (r: Result<Variation>)
      ensures r.Err? <==> variationName == ""
      ensures r.Err? ==> r.error == IllegalArgument("")
      ensures r.Ok? ==> fresh(r.value) && r.value.variationName == variationName
      ensures r.Ok? ==> r.value.weightCalculation == CalculationNode("weight", weight)
      ensures r.Ok? ==> !r.value.nameVisible && r.value.namePattern.None?
    {
      if variationName == "" {
        return Err(IllegalArgument(""));
      }
      var variation := new Variation.Init(variationName, weight);
      r := Ok(variation);
    }

    /** calculateWeight: the weight formula's value. */
    function CalculateWeight(values: map<string, real>): (r: Result<real>)
      reads this
      ensures r.Ok? <==> weightCalculation.RequiredVariables() <= values.Keys
      ensures r.Ok? ==> r.value == weightCalculation.expression.evaluate(values)
    {
      weightCalculation.CalculateVariable(values)
    }

    /** addAttribute is not supported by this class: it always fails and changes nothing. */
    method AddAttribute(attribute: string) returns (r: Outcome)
      ensures r == Fail(UnsupportedOperation)
    {
      r := Fail(UnsupportedOperation);
    }

    /** addEquipment is not supported by this class. */
    method AddEquipment() returns (r: Outcome)
      ensures r == Fail(UnsupportedOperation)
    {
      r := Fail(UnsupportedOperation);
    }

    /** addDrop is not supported by this class. */
    method AddDrop() returns (r: Outcome)
      ensures r == Fail(UnsupportedOperation)
    {
      r := Fail(UnsupportedOperation);
    }

    method SetWeight(weight: Expression)
      modifies this
      ensures weightCalculation == CalculationNode("weight", weight)
      ensures nameVisible == old(nameVisible) && namePattern == old(namePattern)
    {
      weightCalculation := CalculationNode("weight", weight);
    }

    method SetNamePattern(pattern: Option<string>)
      modifies this
      ensures namePattern == pattern
      ensures weightCalculation == old(weightCalculation) && nameVisible == old(nameVisible)
    {
      namePattern := pattern;
    }

    method SetNameVisible(visible: bool)
      modifies this
      ensures nameVisible == visible
      ensures weightCalculation == old(weightCalculation) && namePattern == old(namePattern)
    {
      nameVisible := visible;
    }

    /**
     * modifyEntity: renames the entity only when a name pattern is set,
     * and always sets its name visibility.
     */
    method ModifyEntity(entity: Entity, render: NameRenderer)
      modifies entity
      ensures entity.customName == NameAfter(namePattern, variationName, render, old(entity.customName))
      ensures entity.customNameVisible == nameVisible
      ensures entity.scoreboardTags == old(entity.scoreboardTags)
    {
      if namePattern.Some? {
        entity.customName := Some(render(namePattern.value, variationName));
      }
      entity.customNameVisible := nameVisible;
    }

    /** equals: variations are equal exactly when their names are. */
    predicate Equals(other: Variation) {
      variationName == other.variationName
    }

    /** hashCode: 97 * 5 + the name's hash, in int arithmetic. */
    function HashCode(): (h: Int32)
      ensures variationName == [] ==> h == 485
    {
      Truncate(97 * 5 + StringHash(variationName), INT_MODULUS)
    }

    /**
     * modifyEntityWeighted over the variations in the iteration order of
     * their set: the weighted choice of WeightedSelection, after which only
     * the chosen variation modifies the entity. On a failure, or when no
     * variation is chosen, the entity is left as it was.
     */
    static method ModifyEntityWeighted(variations: seq<Variation>, entity: Entity, values: map<string, real>,
                                       nextInt: int -> int, render: NameRenderer)
      returns (r: Result<Option<nat>>)
      requires forall bound :: 0 < bound ==> 0 <= nextInt(bound) < bound
      modifies entity
      ensures SelectionOutcome(VariationWeights(variations), values, nextInt, r)
      ensures FairSelection(VariationWeights(variations), values, nextInt, r)
      ensures r.Ok? && r.value.Some? ==>
                && r.value.value < |variations|
                && var chosen := variations[r.value.value];
                && entity.customName == NameAfter(chosen.namePattern, chosen.variationName, render, old(entity.customName))
                && entity.customNameVisible == chosen.nameVisible
      ensures !(r.Ok? && r.value.Some?) ==>
                entity.customName == old(entity.customName) && entity.customNameVisible == old(entity.customNameVisible)
      ensures entity.scoreboardTags == old(entity.scoreboardTags)
    {
      var weightCalculations := VariationWeights(variations);
      r := SelectWeighted(weightCalculations, values, nextInt);
      if r.Ok? && r.value.Some? {
        variations[r.value.value].ModifyEntity(entity, render);
      }
      assert weightCalculations == VariationWeights(variations);
    }
  }

  /** The weight formulas of the variations, in order. */
  function VariationWeights(variations: seq<Variation>): (nodes: seq<CalculationNode>)
    reads variations
    ensures |nodes| == |variations|
    ensures forall i :: 0 <= i < |variations| ==> nodes[i] == variations[i].weightCalculation
  {
    if variations == [] then [] else [variations[0].weightCalculation] + VariationWeights(variations[1..])
  }

  lemma EqualVariationsHashEqually(a: Variation, b: Variation)
    requires a.Equals(b)
    ensures a.HashCode() == b.HashCode() && b.Equals(a)
  {
  }

  /** A Bukkit attribute, known here by the name its toString gives. */
  datatype Attribute = Attribute(name: string)

  /** Whether some drop in `drops` has the name of `drop`, the identity its equals uses. */
  predicate HasDropNamed(drops: seq<DropVariation>, name: string)
    reads drops
  {
    exists i :: 0 <= i < |drops| && drops[i].variationName == name
  }

  class EntityVariation {
    const variationName: string
    var weightCalculation: CalculationNode
    var experienceCalculation: Option<CalculationNode>
    var nameVisible: bool
    var namePattern: Option<string>
    /** The drop set, kept in insertion order; its members have distinct names. */
    var drops: seq<DropVariation>
    var attributes: map<Attribute, CalculationNode>

    /** The drop set holds no two drops that are equal, that is, share a name. */
    predicate Valid()
      reads this, drops
    {
      forall i, j :: 0 <= i < j < |drops| ==> drops[i].variationName != drops[j].variationName
    }

    /** The state after a successful construction: only the weight is set. */
    constructor Init(variationName: string, weight: Expression)
      requires variationName != ""
      ensures Valid()
      ensures this.variationName == variationName
      ensures weightCalculation == CalculationNode("weight", weight)
      ensures experienceCalculation.None? && !nameVisible && namePattern.None?
      ensures drops == [] && attributes == map[]
    {
      this.variationName := variationName;
      weightCalculation := CalculationNode("weight", weight);
      experienceCalculation := None;
      nameVisible := false;
      namePattern := None;
      drops := [];
      attributes := map[];
    }

    /** new EntityVariation(name, weight, plugin): rejects the empty name. */
    static method New(variationName: string, weight: Expression) returns (r: Result<EntityVariation>)
      ensures r.Err? <==> variationName == ""
      ensures r.Err? ==> r.error == IllegalArgument("")
      ensures r.Ok? ==> fresh(r.value) && r.value.Valid() && r.value.variationName == variationName
      ensures r.Ok? ==> r.value.weightCalculation == CalculationNode("weight", weight)
      ensures r.Ok? ==> r.value.experienceCalculation.None? && r.value.drops == [] && r.value.attributes == map[]
      ensures r.Ok? ==> !r.value.nameVisible && r.value.namePattern.None?
    {
      if variationName == "" {
        return Err(IllegalArgument(""));
      }
      var variation := new EntityVariation.Init(variationName, weight);
      r := Ok(variation);
    }

    /** calculateWeight: the weight formula's value. */
    function CalculateWeight(values: map<string, real>): (r: Result<real>)
      reads this
      ensures r.Ok? <==> weightCalculation.RequiredVariables() <= values.Keys
      ensures r.Ok? ==> r.value == weightCalculation.expression.evaluate(values)
    {
      weightCalculation.CalculateVariable(values)
    }

    /**
     * addAttribute: the attribute's formula, as a node providing the
     * attribute's name followed by "_VALUE", replaces any earlier one.
     */
    method AddAttribute(attribute: Attribute, attributeValue: Expression)
      modifies this
      ensures attributes == old(attributes)[attribute := CalculationNode(attribute.name + "_VALUE", attributeValue)]
      ensures attributes[attribute].ProvidedVariable() == attribute.name + "_VALUE"
      ensures drops == old(drops) && weightCalculation == old(weightCalculation)
      ensures experienceCalculation == old(experienceCalculation)
      ensures nameVisible == old(nameVisible) && namePattern == old(namePattern)
    {
      attributes := attributes[attribute := CalculationNode(attribute.name + "_VALUE", attributeValue)];
    }

    /** addEquipment is not supported: it always fails and changes nothing. */
    method AddEquipment() returns (r: Outcome)
      ensures r == Fail(UnsupportedOperation)
    {
      r := Fail(UnsupportedOperation);
    }

    /**
     * addDrop: adds the drop to the set, which keeps an equal drop (one
     * with the same name) already present and then does not change.
     */
    method AddDrop(drop: DropVariation)
      requires Valid()
      modifies this
      ensures Valid()
      ensures HasDropNamed(old(drops), drop.variationName) ==> drops == old(drops)
      ensures !HasDropNamed(old(drops), drop.variationName) ==> drops == old(drops) + [drop]
      ensures HasDropNamed(drops, drop.variationName)
      ensures attributes == old(attributes) && weightCalculation == old(weightCalculation)
      ensures experienceCalculation == old(experienceCalculation)
      ensures nameVisible == old(nameVisible) && namePattern == old(namePattern)
    {
      if !HasDropNamed(drops, drop.variationName) {
        drops := drops + [drop];
        assert drops[|drops| - 1] == drop;
      }
    }

    method SetWeight(weight: Expression)
      modifies this
      ensures weightCalculation == CalculationNode("weight", weight)
      ensures experienceCalculation == old(experienceCalculation) && drops == old(drops) && attributes == old(attributes)
      ensures nameVisible == old(nameVisible) && namePattern == old(namePattern)
    {
      weightCalculation := CalculationNode("weight", weight);
    }

    method SetExpDrop(experience: Expression)
      modifies this
      ensures experienceCalculation == Some(CalculationNode("experience", experience))
      ensures weightCalculation == old(weightCalculation) && drops == old(drops) && attributes == old(attributes)
      ensures nameVisible == old(nameVisible) && namePattern == old(namePattern)
    {
      experienceCalculation := Some(CalculationNode("experience", experience));
    }

    method SetNamePattern(pattern: Option<string>)
      modifies this
      ensures namePattern == pattern
      ensures weightCalculation == old(weightCalculation) && experienceCalculation == old(experienceCalculation)
      ensures drops == old(drops) && attributes == old(attributes) && nameVisible == old(nameVisible)
    {
      namePattern := pattern;
    }

    method SetNameVisible(visible: bool)
      modifies this
      ensures nameVisible == visible
      ensures weightCalculation == old(weightCalculation) && experienceCalculation == old(experienceCalculation)
      ensures drops == old(drops) && attributes == old(attributes) && namePattern == old(namePattern)
    {
      nameVisible := visible;
    }

    /**
     * modifyEntity, as far as the entity's name goes: renamed only when a
     * name pattern is set, name visibility always set.
     */
    method ModifyEntity(entity: Entity, render: NameRenderer)
      modifies entity
      ensures entity.customName == NameAfter(namePattern, variationName, render, old(entity.customName))
      ensures entity.customNameVisible == nameVisible
      ensures entity.scoreboardTags == old(entity.scoreboardTags)
    {
      if namePattern.Some? {
        entity.customName := Some(render(namePattern.value, variationName));
      }
      entity.customNameVisible := nameVisible;
    }

    /** equals: entity variations are equal exactly when their names are. */
    predicate Equals(other: EntityVariation) {
      variationName == other.variationName
    }

    /** hashCode: 97 * 5 + the name's hash, in int arithmetic. */
    function HashCode(): (h: Int32)
      ensures variationName == [] ==> h == 485
    {
      Truncate(97 * 5 + StringHash(variationName), INT_MODULUS)
    }

    /**
     * modifyEntityWeighted: an entity tagged "Custom" is left alone and
     * nothing is computed; otherwise the weighted choice of
     * WeightedSelection, after which only the chosen variation modifies the
     * entity.
     */
    static method ModifyEntityWeighted(variations: seq<EntityVariation>, entity: Entity, values: map<string, real>,
                                       nextInt: int -> int, render: NameRenderer)
      returns (r: Result<Option<nat>>)
      requires forall bound :: 0 < bound ==> 0 <= nextInt(bound) < bound
      modifies entity
      ensures "Custom" in old(entity.scoreboardTags) ==> r == Ok(None)
      ensures "Custom" !in old(entity.scoreboardTags) ==>
                && SelectionOutcome(EntityVariationWeights(variations), values, nextInt, r)
                && FairSelection(EntityVariationWeights(variations), values, nextInt, r)
      ensures r.Ok? && r.value.Some? ==>
                && r.value.value < |variations|
                && var chosen := variations[r.value.value];
                && entity.customName == NameAfter(chosen.namePattern, chosen.variationName, render, old(entity.customName))
                && entity.customNameVisible == chosen.nameVisible
      ensures !(r.Ok? && r.value.Some?) ==>
                entity.customName == old(entity.customName) && entity.customNameVisible == old(entity.customNameVisible)
      ensures entity.scoreboardTags == old(entity.scoreboardTags)
    {
      if "Custom" in entity.scoreboardTags {
        return Ok(None);
      }
      var weightCalculations := EntityVariationWeights(variations);
      r := SelectWeighted(weightCalculations, values, nextInt);
      if r.Ok? && r.value.Some? {
        variations[r.value.value].ModifyEntity(entity, render);
      }
      assert weightCalculations == EntityVariationWeights(variations);
    }
  }

  /** The weight formulas of the entity variations, in order. */
  function EntityVariationWeights(variations: seq<EntityVariation>): (nodes: seq<CalculationNode>)
    reads variations
    ensures |nodes| == |variations|
    ensures forall i :: 0 <= i < |variations| ==> nodes[i] == variations[i].weightCalculation
  {
    if variations == [] then [] else [variations[0].weightCalculation] + EntityVariationWeights(variations[1..])
  }

  lemma EqualEntityVariationsHashEqually(a: EntityVariation, b: EntityVariation)
    requires a.Equals(b)
    ensures a.HashCode() == b.HashCode() && b.Equals(a)
  {
  }
}
