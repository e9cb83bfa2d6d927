/**
 * The level of a spawning monster: a level border that clamps integers,
 * and the strategy that turns a distance from a center into a level delta.
 */
module Levels {
  import opened Results
  import opened JavaNumbers

  /** A border on levels; the flags record which bounds were given. */
  datatype LevelBorder = LevelBorder(minimum: Int32, maximum: Int32, hasMinimum: bool, hasMaximum: bool) {

    /** fit: the value clamped into [minimum, maximum]. */
    function Fit(value: Int32): (r: Int32)
      ensures value < minimum ==> r == minimum
      ensures minimum <= value <= maximum ==> r == value
      ensures minimum <= maximum < value ==> r == maximum
      ensures minimum <= maximum ==> minimum <= r <= maximum
      ensures r == value || r == minimum || r == maximum
    {
      if value < minimum then minimum
      else if value > maximum then maximum
      else value
    }
  }

  /** The borders the constructors of LevelBorder admit: never a minimum above the maximum. */
  type Border = b: LevelBorder | b.minimum <= b.maximum witness LevelBorder(0, 0, false, false)

  /** new LevelBorder(min, max, hasMin, hasMax): rejects a minimum above the maximum. */
  function NewLevelBorder(minimum: Int32, maximum: Int32, hasMinimum: bool, hasMaximum: bool): (r: Result<Border>)
    ensures r.Err? <==> minimum > maximum
    ensures r.Err? ==> r.error == IllegalArgument("minimum greater than maximum")
    ensures r.Ok? ==> r.value.minimum == minimum && r.value.maximum == maximum
    ensures r.Ok? ==> r.value.hasMinimum == hasMinimum && r.value.hasMaximum == hasMaximum
  {
    if minimum > maximum then Err(IllegalArgument("minimum greater than maximum"))
    else Ok(LevelBorder(minimum, maximum, hasMinimum, hasMaximum))
  }

  /** new LevelBorder(): no bound given, so the whole int range. */
  function DefaultBorder(): (b: Border)
    ensures b.minimum == INT_MIN && b.maximum == INT_MAX
    ensures !b.hasMinimum && !b.hasMaximum
  {
    LevelBorder(INT_MIN, INT_MAX, false, false)
  }

  /** new LevelBorder(OptionalInt, OptionalInt): an absent bound is the extreme int. */
  function OptionalBorder(minimum: Option<Int32>, maximum: Option<Int32>): (r: Result<Border>)
    ensures minimum.None? && maximum.None? ==> r == Ok(DefaultBorder())
    ensures r.Ok? ==> r.value.hasMinimum == minimum.Some? && r.value.hasMaximum == maximum.Some?
    ensures r.Ok? ==> r.value.minimum == (if minimum.Some? then minimum.value else INT_MIN)
    ensures r.Ok? ==> r.value.maximum == (if maximum.Some? then maximum.value else INT_MAX)
    ensures r.Err? <==> minimum.Some? && maximum.Some? && minimum.value > maximum.value
  {
    NewLevelBorder(if minimum.Some? then minimum.value else INT_MIN,
                   if maximum.Some? then maximum.value else INT_MAX,
                   minimum.Some?, maximum.Some?)
  }

  /** new LevelBorder(int, int): both bounds given. */
  function BoundedBorder(minimum: Int32, maximum: Int32): (r: Result<Border>)
    ensures r.Err? <==> minimum > maximum
    ensures r.Ok? ==> r.value == LevelBorder(minimum, maximum, true, true)
  {
    NewLevelBorder(minimum, maximum, true, true)
  }

  /** fit is idempotent. */
  lemma FitIdempotent(b: Border, value: Int32)
    ensures b.Fit(b.Fit(value)) == b.Fit(value)
  {
  }

  /** fit is monotone. */
  lemma FitMonotone(b: Border, x: Int32, y: Int32)
    requires x <= y
    ensures b.Fit(x) <= b.Fit(y)
  {
  }

  /** The border without bounds leaves every int as it is. */
  lemma DefaultFitIdentity(value: Int32)
    ensures DefaultBorder().Fit(value) == value
  {
  }

  /** The flags are recorded only: fit looks at the bounds alone. */
  lemma FitIgnoresFlags(b: Border, hasMinimum: bool, hasMaximum: bool, value: Int32)
    ensures LevelBorder(b.minimum, b.maximum, hasMinimum, hasMaximum).Fit(value) == b.Fit(value)
  {
  }

  /**
   * The fields of a level change strategy: levels per step, distance per
   * step, the distance that changes nothing, and the border.
   */
  datatype LevelChangeStrategy = LevelChangeStrategy(levelPerChange: Int32, distancePerChange: real, offset: real,
                                                     border: Border)

  /** Math.toIntExact(Math.round(q)) for an integral q: q itself, or an overflow. */
  lemma RoundIntegral(n: int)
    ensures ToIntExact(RoundToLong(n as real)) == (if IsInt32(n) then Ok(n) else Err(Arithmetic("integer overflow")))
  {
    var x := n as real;
    if LONG_MIN as real <= x + 0.5 < LONG_MAX as real + 1.0 {
      assert RoundToLong(x) == n;
    }
  }

  /**
   * The number of steps as calculateLevelDelta computes it from the raw
   * distance: the part of |distance| beyond the offset, divided by the
   * distance per step and floored. A zero distance per step gives 0 / 0,
   * NaN, which rounds to 0, or x / 0 for x > 0, infinity, which rounds to
   * the largest long and overflows int.
   */
  function Changes(s: LevelChangeStrategy, distance: real): (r: Result<Int32>)
    ensures Abs(distance) <= s.offset ==> r == Ok(0)
    ensures s.offset < Abs(distance) && s.distancePerChange == 0.0 ==> r == Err(Arithmetic("integer overflow"))
    ensures s.offset < Abs(distance) && s.distancePerChange != 0.0 ==>
              var n := ((Abs(distance) - s.offset) / s.distancePerChange).Floor;
              r == if IsInt32(n) then Ok(n) else Err(Arithmetic("integer overflow"))
  {
    var changingDistance := RealMax(0.0, Abs(distance) - s.offset);
    if s.distancePerChange == 0.0 then
      if changingDistance == 0.0 then Ok(0) else Err(Arithmetic("integer overflow"))
    else
      var n := (changingDistance / s.distancePerChange).Floor;
      RoundIntegral(n);
      ToIntExact(RoundToLong(n as real))
  }

  /**
   * calculateLevelDelta for a raw distance: the steps times the levels per
   * step, failing on int overflow, then fitted into the border.
   */
  function CalculateLevelDelta(s: LevelChangeStrategy, distance: real): (r: Result<Int32>)
    ensures Changes(s, distance).Err? ==> r == Err(Changes(s, distance).error)
    ensures Changes(s, distance).Ok? ==>
              var level := Changes(s, distance).value * s.levelPerChange;
              r == if IsInt32(level) then Ok(s.border.Fit(level)) else Err(Arithmetic("integer overflow"))
    ensures Abs(distance) <= s.offset ==> r == Ok(s.border.Fit(0))
    ensures r.Ok? ==> s.border.minimum <= r.value <= s.border.maximum
  {
    var changes :- Changes(s, distance);
    var level :- MultiplyExact(changes, s.levelPerChange);
    Ok(s.border.Fit(level))
  }

  /** Only the magnitude of the distance matters. */
  lemma {:induction false} LevelDeltaIgnoresSign(s: LevelChangeStrategy, distance: real)
    ensures CalculateLevelDelta(s, -distance) == CalculateLevelDelta(s, distance)
  {
    assert Abs(-distance) == Abs(distance);
  }

  /**
   * With a positive step, a distance further out never gives fewer steps:
   * the number of steps is monotone in |distance|.
   */
  lemma ChangesMonotone(s: LevelChangeStrategy, near: real, far: real)
    requires s.distancePerChange > 0.0
    requires Abs(near) <= Abs(far)
    requires Changes(s, near).Ok? && Changes(s, far).Ok?
    ensures Changes(s, near).value <= Changes(s, far).value
  {
    if s.offset < Abs(near) {
      DivideMonotone(Abs(near) - s.offset, Abs(far) - s.offset, s.distancePerChange);
    } else if s.offset < Abs(far) {
      assert 0.0 <= (Abs(far) - s.offset) / s.distancePerChange;
    }
  }

  lemma DivideMonotone(x: real, y: real, c: real)
    requires x <= y && 0.0 < c
    ensures x / c <= y / c
  {
    assert y / c - x / c == (y - x) / c;
  }

  /** A point in space. */
  datatype Vector = Vector(x: real, y: real, z: real)

  /** VerticalLevelChangeStrategy(levelPerChange, distancePerChange): no offset, no border. */
  function Vertical(levelPerChange: Int32, distancePerChange: real): (s: LevelChangeStrategy)
    ensures s.offset == 0.0 && s.border == DefaultBorder()
    ensures s.levelPerChange == levelPerChange && s.distancePerChange == distancePerChange
  {
    VerticalWithOffsetAndBorder(levelPerChange, distancePerChange, 0.0, DefaultBorder())
  }

  /** VerticalLevelChangeStrategy(levelPerChange, distancePerChange, offset): no border. */
  function VerticalWithOffset(levelPerChange: Int32, distancePerChange: real, offset: real): (s: LevelChangeStrategy)
    ensures s.offset == offset && s.border == DefaultBorder()
    ensures s.levelPerChange == levelPerChange && s.distancePerChange == distancePerChange
  {
    VerticalWithOffsetAndBorder(levelPerChange, distancePerChange, offset, DefaultBorder())
  }

  /** VerticalLevelChangeStrategy(levelPerChange, distancePerChange, border): no offset. */
  function VerticalWithBorder(levelPerChange: Int32, distancePerChange: real, border: Border): (s: LevelChangeStrategy)
    ensures s.offset == 0.0 && s.border == border
    ensures s.levelPerChange == levelPerChange && s.distancePerChange == distancePerChange
  {
    VerticalWithOffsetAndBorder(levelPerChange, distancePerChange, 0.0, border)
  }

  function VerticalWithOffsetAndBorder(levelPerChange: Int32, distancePerChange: real, offset: real,
                                       border: Border): LevelChangeStrategy
  {
    LevelChangeStrategy(levelPerChange, distancePerChange, offset, border)
  }

  /** calculateDistance of the vertical strategy: the height of the center above the target. */
  function VerticalDistance(center: Vector, target: Vector): (d: real)
    ensures d + target.y == center.y
  {
    center.y - target.y
  }

  /**
   * calculateLevelDelta(center, target) of the vertical strategy: the level
   * delta for the height difference, zero steps within the offset, and
   * always inside the border.
   */
  function VerticalLevelDelta(s: LevelChangeStrategy, center: Vector, target: Vector): (r: Result<Int32>)
    ensures r == CalculateLevelDelta(s, center.y - target.y)
    ensures Abs(center.y - target.y) <= s.offset ==> r == Ok(s.border.Fit(0))
    ensures r.Ok? ==> s.border.minimum <= r.value <= s.border.maximum
  {
    CalculateLevelDelta(s, VerticalDistance(center, target))
  }

  /** The x and z coordinates of both points play no part. */
  lemma VerticalIgnoresXZ(s: LevelChangeStrategy, center: Vector, target: Vector, center': Vector, target': Vector)
    requires center'.y == center.y && target'.y == target.y
    ensures VerticalLevelDelta(s, center', target') == VerticalLevelDelta(s, center, target)
  {
  }

  /** Targets the same height above and below the center get the same level delta. */
  lemma {:induction false} VerticalMirror(s: LevelChangeStrategy, center: Vector, height: real)
    ensures VerticalLevelDelta(s, center, center.(y := center.y + height))
         == VerticalLevelDelta(s, center, center.(y := center.y - height))
  {
    assert VerticalDistance(center, center.(y := center.y + height)) == -height;
    assert VerticalDistance(center, center.(y := center.y - height)) == height;
    LevelDeltaIgnoresSign(s, height);
  }

  /** Without offset or border, the level delta is the exact steps times the levels per step. */
  lemma {:induction false} UnboundedVerticalDelta(levelPerChange: Int32, distancePerChange: real,
                                                 center: Vector, target: Vector)
    requires distancePerChange > 0.0
    requires var n := (Abs(VerticalDistance(center, target)) / distancePerChange).Floor;
             IsInt32(n) && IsInt32(n * levelPerChange)
    ensures VerticalLevelDelta(Vertical(levelPerChange, distancePerChange), center, target)
         == Ok((Abs(VerticalDistance(center, target)) / distancePerChange).Floor * levelPerChange)
  {
    var s := Vertical(levelPerChange, distancePerChange);
    var d := VerticalDistance(center, target);
    if Abs(d) <= 0.0 {
      assert Abs(d) / distancePerChange == 0.0;
    }
    DefaultFitIdentity((Abs(d) / distancePerChange).Floor * levelPerChange);
  }
}
