/**
 * Item drops of a monster variation: a chance formula gates the drop, and
 * the amount, damage and data formulas are rounded and narrowed to the
 * widths of an item stack (int, short and byte).
 */
module Drops {
  import opened Results
  import opened JavaNumbers
  import opened Expressions
  import opened CalculationNodes

  /** A Bukkit material, known here only by its name. */
  datatype Material = Material(name: string)

  /** The parts of an item stack that a drop determines. */
  datatype ItemStack = ItemStack(material: Material, amount: Int32, damage: Int16, data: Int8)

  /** A formula's value rounded by Math.round, or the formula's own failure. */
  function Rounded(calculation: CalculationNode, values: map<string, real>): (r: Result<Int64>)
    ensures r.Ok? <==> calculation.RequiredVariables() <= values.Keys
    ensures r.Ok? ==> r.value == RoundToLong(calculation.expression.evaluate(values))
    ensures r.Err? ==> r.error == IllegalArgument("missing variables")
  {
    var v :- calculation.CalculateVariable(values);
    Ok(RoundToLong(v))
  }

  /** The items actually dropped, in order. */
  function Present(options: seq<Option<ItemStack>>): (present: seq<ItemStack>)
    ensures |present| <= |options|
    ensures forall x :: x in present <==> Some(x) in options
    ensures (forall i :: 0 <= i < |options| ==> options[i].Some?) ==> |present| == |options|
    ensures (forall i :: 0 <= i < |options| ==> options[i].None?) ==> present == []
  {
    if options == [] then []
    else
      var rest := Present(options[1..]);
      assert forall o :: o in options[1..] ==> o in options;
      if options[0].Some? then [options[0].value] + rest else rest
  }

  /** An item is present as often as the options hold it. */
  lemma {:induction false} PresentCount(options: seq<Option<ItemStack>>, x: ItemStack)
    ensures multiset(Present(options))[x] == multiset(options)[Some(x)]
  {
    if options != [] {
      PresentCount(options[1..], x);
      assert options == [options[0]] + options[1..];
    }
  }

  /** Present keeps the order: it maps a concatenation to the concatenation of its parts. */
  lemma {:induction false} PresentAppend(a: seq<Option<ItemStack>>, b: seq<Option<ItemStack>>)
    ensures Present(a + b) == Present(a) + Present(b)
  {
    if a == [] {
      assert a + b == b;
    } else {
      assert (a + b)[0] == a[0] && (a + b)[1..] == a[1..] + b;
      PresentAppend(a[1..], b);
    }
  }

  /** On a single option, Present keeps the item or drops the empty one. */
  lemma PresentSingle(o: Option<ItemStack>)
    ensures Present([o]) == if o.Some? then [o.value] else []
  {
    assert [o][1..] == [];
  }

  /** The positions of `options` that hold `Some(x)`. */
  ghost function Occurrences(options: seq<Option<ItemStack>>, x: ItemStack): set<int> {
    set i | 0 <= i < |options| && options[i] == Some(x)
  }

  /** The number of positions holding Some(x) is the multiplicity of Some(x). */
  lemma {:induction false} OccurrencesCount(options: seq<Option<ItemStack>>, x: ItemStack)
    ensures |Occurrences(options, x)| == multiset(options)[Some(x)]
  {
    if options != [] {
      var p, y := options[..|options| - 1], options[|options| - 1];
      OccurrencesCount(p, x);
      assert options == p + [y];
      if y == Some(x) {
        assert Occurrences(options, x) == Occurrences(p, x) + {|p|};
      } else {
        assert Occurrences(options, x) == Occurrences(p, x);
      }
    }
  }

  class DropVariation {
    const variationName: string
    var dropChanceCalculation: CalculationNode
    var amountCalculation: Option<CalculationNode>
    var damageCalculation: Option<CalculationNode>
    var dataCalculation: Option<CalculationNode>
    var materialType: Material

    /** The state after a successful construction: only the chance and the material are set. */
    constructor Init(variationName: string, dropChance: Expression, materialType: Material)
      requires variationName != ""
      ensures this.variationName == variationName
      ensures dropChanceCalculation == CalculationNode("dropChance", dropChance)
      ensures amountCalculation.None? && damageCalculation.None? && dataCalculation.None?
      ensures this.materialType == materialType
    {
      this.variationName := variationName;
      dropChanceCalculation := CalculationNode("dropChance", dropChance);
      amountCalculation := None;
      damageCalculation := None;
      dataCalculation := None;
      this.materialType := materialType;
    }

    /** new DropVariation(name, dropChance, type): rejects the empty name. */
    static method New(variationName: string, dropChance: Expression, materialType: Material)
      returns (r: Result<DropVariation>)
      ensures r.Err? <==> variationName == ""
      ensures r.Err? ==> r.error == IllegalArgument("")
      ensures r.Ok? ==> fresh(r.value) && r.value.variationName == variationName
      ensures r.Ok? ==> r.value.dropChanceCalculation == CalculationNode("dropChance", dropChance)
      ensures r.Ok? ==> r.value.amountCalculation.None? && r.value.damageCalculation.None? && r.value.dataCalculation.None?
      ensures r.Ok? ==> r.value.materialType == materialType
    {
      if variationName == "" {
        return Err(IllegalArgument(""));
      }
      var drop := new DropVariation.Init(variationName, dropChance, materialType);
      r := Ok(drop);
    }

    method SetDropChance(dropChance: Expression)
      modifies this
      ensures dropChanceCalculation == CalculationNode("dropChance", dropChance)
      ensures amountCalculation == old(amountCalculation) && damageCalculation == old(damageCalculation)
      ensures dataCalculation == old(dataCalculation) && materialType == old(materialType)
    {
      dropChanceCalculation := CalculationNode("dropChance", dropChance);
    }

    method SetAmount(amount: Expression)
      modifies this
      ensures amountCalculation == Some(CalculationNode("amount", amount))
      ensures dropChanceCalculation == old(dropChanceCalculation) && damageCalculation == old(damageCalculation)
      ensures dataCalculation == old(dataCalculation) && materialType == old(materialType)
    {
      amountCalculation := Some(CalculationNode("amount", amount));
    }

    method SetDamage(damage: Expression)
      modifies this
      ensures damageCalculation == Some(CalculationNode("damage", damage))
      ensures dropChanceCalculation == old(dropChanceCalculation) && amountCalculation == old(amountCalculation)
      ensures dataCalculation == old(dataCalculation) && materialType == old(materialType)
    {
      damageCalculation := Some(CalculationNode("damage", damage));
    }

    method SetData(data: Expression)
      modifies this
      ensures dataCalculation == Some(CalculationNode("data", data))
      ensures dropChanceCalculation == old(dropChanceCalculation) && amountCalculation == old(amountCalculation)
      ensures damageCalculation == old(damageCalculation) && materialType == old(materialType)
    {
      dataCalculation := Some(CalculationNode("data", data));
    }

    method SetType(materialType: Material)
      modifies this
      ensures this.materialType == materialType
      ensures dropChanceCalculation == old(dropChanceCalculation) && amountCalculation == old(amountCalculation)
      ensures damageCalculation == old(damageCalculation) && dataCalculation == old(dataCalculation)
    {
      this.materialType := materialType;
    }

    /** calculateDropChance: the chance formula's value. */
    function CalculateDropChance(values: map<string, real>): (r: Result<real>)
      reads this
      ensures r.Ok? <==> dropChanceCalculation.RequiredVariables() <= values.Keys
      ensures r.Ok? ==> r.value == dropChanceCalculation.expression.evaluate(values)
    {
      dropChanceCalculation.CalculateVariable(values)
    }

    /**
     * calculateAmount: the rounded amount, failing with "integer overflow"
     * outside the range of int; a null pointer when no amount formula is set.
     */
    function CalculateAmount(values: map<string, real>): (r: Result<Int32>)
      reads this
      ensures amountCalculation.None? ==> r == Err(NullPointer)
      ensures amountCalculation.Some? && Rounded(amountCalculation.value, values).Err? ==>
                r == Err(Rounded(amountCalculation.value, values).error)
      ensures amountCalculation.Some? && Rounded(amountCalculation.value, values).Ok? ==>
                var v := Rounded(amountCalculation.value, values).value;
                (r.Ok? <==> IsInt32(v)) && (r.Ok? ==> r.value == v) && (r.Err? ==> r.error == Arithmetic("integer overflow"))
    {
      match amountCalculation
      case None => Err(NullPointer)
      case Some(calculation) =>
        var v :- Rounded(calculation, values);
        ToIntExact(v)
    }

    /**
     * calculateDamage: the rounded damage, failing with "short overflow"
     * exactly when it lies outside [-32768, 32767].
     */
    function CalculateDamage(values: map<string, real>): (r: Result<Int16>)
      reads this
      ensures damageCalculation.None? ==> r == Err(NullPointer)
      ensures damageCalculation.Some? && Rounded(damageCalculation.value, values).Err? ==>
                r == Err(Rounded(damageCalculation.value, values).error)
      ensures damageCalculation.Some? && Rounded(damageCalculation.value, values).Ok? ==>
                var v := Rounded(damageCalculation.value, values).value;
                (r.Ok? <==> -32768 <= v <= 32767) && (r.Ok? ==> r.value == v) && (r.Err? ==> r.error == Arithmetic("short overflow"))
    {
      match damageCalculation
      case None => Err(NullPointer)
      case Some(calculation) =>
        var v :- Rounded(calculation, values);
        NarrowToShort(v)
    }

    /**
     * calculateData: the rounded data value, failing with "integer
     * overflow" exactly when it lies outside [-128, 127].
     */
    function CalculateData(values: map<string, real>): (r: Result<Int8>)
      reads this
      ensures dataCalculation.None? ==> r == Err(NullPointer)
      ensures dataCalculation.Some? && Rounded(dataCalculation.value, values).Err? ==>
                r == Err(Rounded(dataCalculation.value, values).error)
      ensures dataCalculation.Some? && Rounded(dataCalculation.value, values).Ok? ==>
                var v := Rounded(dataCalculation.value, values).value;
                (r.Ok? <==> -128 <= v <= 127) && (r.Ok? ==> r.value == v) && (r.Err? ==> r.error == Arithmetic("integer overflow"))
    {
      match dataCalculation
      case None => Err(NullPointer)
      case Some(calculation) =>
        var v :- Rounded(calculation, values);
        NarrowToByte(v)
    }

    /**
     * generateItemByChance with the draw `u` of Random.nextDouble: nothing
     * when u exceeds the chance, before amount, damage and data are looked
     * at; otherwise the item, or the failure of the first of amount, damage
     * and data that fails.
     */
    function GenerateItemByChance(values: map<string, real>, u: real): (r: Result<Option<ItemStack>>)
      reads this
      ensures CalculateDropChance(values).Err? ==> r == Err(CalculateDropChance(values).error)
      ensures CalculateDropChance(values).Ok? && u > CalculateDropChance(values).value ==> r == Ok(None)
      ensures CalculateDropChance(values).Ok? && u <= CalculateDropChance(values).value ==>
                && (r.Ok? <==> CalculateAmount(values).Ok? && CalculateDamage(values).Ok? && CalculateData(values).Ok?)
                && (r.Ok? ==> r.value == Some(ItemStack(materialType, CalculateAmount(values).value,
                                                         CalculateDamage(values).value, CalculateData(values).value)))
                && (CalculateAmount(values).Err? ==> r == Err(CalculateAmount(values).error))
                && (CalculateAmount(values).Ok? && CalculateDamage(values).Err? ==> r == Err(CalculateDamage(values).error))
                && (CalculateAmount(values).Ok? && CalculateDamage(values).Ok? && CalculateData(values).Err? ==>
                      r == Err(CalculateData(values).error))
    {
      var chance :- CalculateDropChance(values);
      if u > chance then Ok(None)
      else
        var amount :- CalculateAmount(values);
        var damage :- CalculateDamage(values);
        var data :- CalculateData(values);
        Ok(Some(ItemStack(materialType, amount, damage, data)))
    }

    /** equals: drop variations are equal exactly when their names are. */
    predicate Equals(other: DropVariation) {
      variationName == other.variationName
    }

    /** hashCode: 53 * 5 + the name's hash, in int arithmetic. */
    function HashCode(): (h: Int32)
      ensures variationName == [] ==> h == 265
    {
      Truncate(53 * 5 + StringHash(variationName), INT_MODULUS)
    }
  }

  lemma EqualDropsHashEqually(a: DropVariation, b: DropVariation)
    requires a.Equals(b)
    ensures a.HashCode() == b.HashCode() && b.Equals(a)
  {
  }

  /**
   * A chance of at least 1 always lets a draw from [0, 1) through: the drop
   * yields an item unless amount, damage or data fails.
   */
  lemma CertainDropNeverEmpty(drop: DropVariation, values: map<string, real>, u: real)
    requires 0.0 <= u < 1.0
    requires drop.CalculateDropChance(values).Ok? && drop.CalculateDropChance(values).value >= 1.0
    ensures drop.GenerateItemByChance(values, u) != Ok(None)
  {
  }

  /**
   * A negative chance never lets a draw from [0, 1) through, and then no
   * narrowing failure of amount, damage or data can occur, whether or not
   * those formulas are set.
   */
  lemma NegativeChanceNeverDrops(drop: DropVariation, values: map<string, real>, u: real)
    requires 0.0 <= u
    requires drop.CalculateDropChance(values).Ok? && drop.CalculateDropChance(values).value < 0.0
    ensures drop.GenerateItemByChance(values, u) == Ok(None)
  {
  }

  /** The results of each drop, one per drop, with the draws taken in order. */
  function ItemsByChance(drops: seq<DropVariation>, values: map<string, real>, draws: seq<real>): (r: Result<seq<Option<ItemStack>>>)
    requires |draws| == |drops|
    reads drops
    ensures r.Ok? <==> forall i :: 0 <= i < |drops| ==> drops[i].GenerateItemByChance(values, draws[i]).Ok?
    ensures r.Ok? ==> |r.value| == |drops|
    ensures r.Ok? ==> forall i :: 0 <= i < |drops| ==> r.value[i] == drops[i].GenerateItemByChance(values, draws[i]).value
  {
    if drops == [] then Ok([])
    else
      var first :- drops[0].GenerateItemByChance(values, draws[0]);
      var rest :- ItemsByChance(drops[1..], values, draws[1..]);
      Ok([first] + rest)
  }

  /**
   * generateLoot: every drop's generateItemByChance in order, with the
   * first failure propagated, keeping only the items actually dropped.
   * An item is in the loot as often as drops yielded it, and the loot is
   * the drops' results, in order, with the empty ones left out (Present,
   * whose order PresentAppend and PresentSingle fix).
   */
  function GenerateLoot(drops: seq<DropVariation>, values: map<string, real>, draws: seq<real>): (r: Result<seq<ItemStack>>)
    requires |draws| == |drops|
    reads drops
    ensures r.Ok? <==> forall i :: 0 <= i < |drops| ==> drops[i].GenerateItemByChance(values, draws[i]).Ok?
    ensures r.Ok? ==> |r.value| <= |drops|
    ensures r.Ok? ==> forall item :: item in r.value <==>
              exists i :: 0 <= i < |drops| && drops[i].GenerateItemByChance(values, draws[i]) == Ok(Some(item))
    ensures r.Ok? ==> r.value == Present(ItemsByChance(drops, values, draws).value)
    ensures r.Ok? ==> forall item :: (multiset(r.value)[item] ==
              |set i | 0 <= i < |drops| && drops[i].GenerateItemByChance(values, draws[i]) == Ok(Some(item))|)
  {
    var items :- ItemsByChance(drops, values, draws);
    assert forall item :: Some(item) in items <==>
      exists i :: 0 <= i < |drops| && drops[i].GenerateItemByChance(values, draws[i]) == Ok(Some(item));
    LootCount(drops, values, draws, items);
    Ok(Present(items))
  }

  /** Each item's multiplicity among the drops' results is the number of drops yielding it. */
  lemma LootCount(drops: seq<DropVariation>, values: map<string, real>, draws: seq<real>,
                  items: seq<Option<ItemStack>>)
    requires |draws| == |drops|
    requires ItemsByChance(drops, values, draws) == Ok(items)
    ensures forall item :: multiset(Present(items))[item] ==
              |set i | 0 <= i < |drops| && drops[i].GenerateItemByChance(values, draws[i]) == Ok(Some(item))|
  {
    forall item
      ensures multiset(Present(items))[item] ==
              |set i | 0 <= i < |drops| && drops[i].GenerateItemByChance(values, draws[i]) == Ok(Some(item))|
    {
      OccurrencesCount(items, item);
      PresentCount(items, item);
      forall i | 0 <= i < |drops|
        ensures items[i] == Some(item) <==> drops[i].GenerateItemByChance(values, draws[i]) == Ok(Some(item))
      {
        ResultAt(drops, values, draws, items, i);
      }
      assert Occurrences(items, item) ==
             set i | 0 <= i < |drops| && drops[i].GenerateItemByChance(values, draws[i]) == Ok(Some(item));
    }
  }

  /** The drops' results hold each drop's own result. */
  lemma ResultAt(drops: seq<DropVariation>, values: map<string, real>, draws: seq<real>,
                 items: seq<Option<ItemStack>>, i: int)
    requires |draws| == |drops|
    requires ItemsByChance(drops, values, draws) == Ok(items)
    requires 0 <= i < |drops|
    ensures drops[i].GenerateItemByChance(values, draws[i]) == Ok(items[i])
  {
  }

  /** The loot of one drop: its item when it yields one, else nothing. */
  lemma LootOfOneDrop(drop: DropVariation, values: map<string, real>, u: real)
    requires drop.GenerateItemByChance(values, u).Ok?
    ensures GenerateLoot([drop], values, [u])
         == Ok(match drop.GenerateItemByChance(values, u).value
               case Some(item) => [item]
               case None => [])
  {
    PresentSingle(drop.GenerateItemByChance(values, u).value);
  }

  /** When every drop yields an item, the loot has one item per drop. */
  lemma LootOfCertainDrops(drops: seq<DropVariation>, values: map<string, real>, draws: seq<real>)
    requires |draws| == |drops|
    requires forall i :: 0 <= i < |drops| ==>
               (drops[i].GenerateItemByChance(values, draws[i]).Ok? && drops[i].GenerateItemByChance(values, draws[i]).value.Some?)
    ensures GenerateLoot(drops, values, draws).Ok? && |GenerateLoot(drops, values, draws).value| == |drops|
  {
    var items := ItemsByChance(drops, values, draws).value;
    assert forall i :: 0 <= i < |items| ==> items[i].Some?;
  }

  /** When no drop passes its chance, the loot is empty. */
  lemma LootOfMissedDrops(drops: seq<DropVariation>, values: map<string, real>, draws: seq<real>)
    requires |draws| == |drops|
    requires forall i :: 0 <= i < |drops| ==> drops[i].GenerateItemByChance(values, draws[i]) == Ok(None)
    ensures GenerateLoot(drops, values, draws) == Ok([])
  {
    var items := ItemsByChance(drops, values, draws).value;
    assert forall i :: 0 <= i < |items| ==> items[i].None?;
  }
}
