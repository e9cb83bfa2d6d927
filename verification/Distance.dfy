/**
 * The two ways of measuring the horizontal distance between two points:
 * the Euclidean one (PYTHAGORAS) and the largest coordinate difference
 * (MINECRAFT, the Chebyshev distance).
 */
module Distance {
  import opened JavaNumbers

  datatype DistanceMethod = Pythagoras | Minecraft

  /** What the square root handed to the Euclidean distance must be. */
  ghost predicate IsSquareRoot(sqrt: real -> real) {
    forall x :: 0.0 <= x ==> 0.0 <= sqrt(x) && sqrt(x) * sqrt(x) == x
  }

  /**
   * distanceOf(deltaX, deltaZ). Math.sqrt is the parameter `sqrt`; with a
   * true square root the Euclidean distance is the non-negative number
   * whose square is deltaX² + deltaZ².
   */
  function DistanceOf(m: DistanceMethod, deltaX: real, deltaZ: real, sqrt: real -> real): (d: real)
    ensures m.Minecraft? ==> Abs(deltaX) <= d && Abs(deltaZ) <= d && (d == Abs(deltaX) || d == Abs(deltaZ))
    ensures m.Pythagoras? && IsSquareRoot(sqrt) ==> 0.0 <= d && d * d == deltaX * deltaX + deltaZ * deltaZ
  {
    match m
    case Pythagoras => sqrt(deltaX * deltaX + deltaZ * deltaZ)
    case Minecraft => RealMax(Abs(deltaX), Abs(deltaZ))
  }

  /** distanceOf(fromX, fromZ, toX, toZ): the distance of the differences. */
  function DistanceBetween(m: DistanceMethod, fromX: real, fromZ: real, toX: real, toZ: real,
                           sqrt: real -> real): (d: real)
    ensures d == DistanceOf(m, toX - fromX, toZ - fromZ, sqrt)
  {
    DistanceOf(m, toX - fromX, toZ - fromZ, sqrt)
  }

  /** Both distances are never negative. */
  lemma DistanceNonNegative(m: DistanceMethod, deltaX: real, deltaZ: real, sqrt: real -> real)
    requires IsSquareRoot(sqrt)
    ensures 0.0 <= DistanceOf(m, deltaX, deltaZ, sqrt)
  {
    if m.Pythagoras? {
      assert 0.0 <= deltaX * deltaX + deltaZ * deltaZ;
    }
  }

  /** Swapping the two points changes neither distance. */
  lemma {:induction false} DistanceSymmetric(m: DistanceMethod, fromX: real, fromZ: real, toX: real, toZ: real,
                                             sqrt: real -> real)
    ensures DistanceBetween(m, fromX, fromZ, toX, toZ, sqrt) == DistanceBetween(m, toX, toZ, fromX, fromZ, sqrt)
  {
    var dx, dz := toX - fromX, toZ - fromZ;
    if m.Pythagoras? {
      var square := dx * dx + dz * dz;
      assert DistanceOf(m, dx, dz, sqrt) == sqrt(square);
      assert (fromX - toX) * (fromX - toX) + (fromZ - toZ) * (fromZ - toZ) == square;
      assert DistanceOf(m, fromX - toX, fromZ - toZ, sqrt) == sqrt(square);
    } else {
      assert Abs(fromX - toX) == Abs(dx) && Abs(fromZ - toZ) == Abs(dz);
    }
  }

  /** A point is at distance 0 from itself. */
  lemma DistanceToItself(m: DistanceMethod, x: real, z: real, sqrt: real -> real)
    requires IsSquareRoot(sqrt)
    ensures DistanceBetween(m, x, z, x, z, sqrt) == 0.0
  {
    if m.Pythagoras? {
      var r := sqrt(0.0);
      assert 0.0 <= r && r * r == 0.0;
      ZeroSquare(r);
    }
  }

  lemma ZeroSquare(r: real)
    requires 0.0 <= r && r * r == 0.0
    ensures r == 0.0
  {
    SquareOrder(r, 0.0);
  }

  /** Of two non-negative numbers, the one with the smaller square is the smaller one. */
  lemma SquareOrder(a: real, b: real)
    requires 0.0 <= a && 0.0 <= b && a * a <= b * b
    ensures a <= b
  {
    assert (b - a) * (b + a) == b * b - a * a;
    if b + a > 0.0 {
      assert b - a == (b * b - a * a) / (b + a);
    }
  }

  /** The Chebyshev distance never exceeds the Euclidean one. */
  lemma MinecraftAtMostPythagoras(deltaX: real, deltaZ: real, sqrt: real -> real)
    requires IsSquareRoot(sqrt)
    ensures DistanceOf(Minecraft, deltaX, deltaZ, sqrt) <= DistanceOf(Pythagoras, deltaX, deltaZ, sqrt)
  {
    var c := DistanceOf(Minecraft, deltaX, deltaZ, sqrt);
    var e := DistanceOf(Pythagoras, deltaX, deltaZ, sqrt);
    assert c * c == deltaX * deltaX || c * c == deltaZ * deltaZ;
    assert c * c <= e * e;
    SquareOrder(c, e);
  }
}
