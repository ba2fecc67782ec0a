/** The extended Euclid loop of poly_handle_totalwrap, for wrap counts of either sign. */
module WrapEuclid {
  import opened Arithmetic

  /** Division that rounds down, whatever the signs. */
  function FloorDiv(n: int, d: int): (q: int)
    requires d != 0
    ensures d > 0 ==> 0 <= n - q * d < d
    ensures d < 0 ==> d < n - q * d <= 0
  {
    if d > 0 then n / d else
      assert (-n) / (-d) * d == -((-n) / (-d) * (-d));
      (-n) / (-d)
  }

  ghost predicate Divides(g: int, n: int) {
    exists k: int :: Is(n, k, g)
  }

  predicate Is(n: int, k: int, g: int) {
    n == k * g
  }

  /** x and y are multipliers of the two wrap counts whose sum is z. */
  datatype Row = Row(x: int, y: int, z: int)

  predicate Combines(r: Row, wrapX: int, wrapY: int) {
    r.x * wrapX + r.y * wrapY == r.z
  }

  /** b minus d times a. */
  function Minus(b: Row, d: int, a: Row): Row {
    Row(b.x - d * a.x, b.y - d * a.y, b.z - d * a.z)
  }

  lemma MinusCombines(b: Row, d: int, a: Row, wrapX: int, wrapY: int)
    requires Combines(a, wrapX, wrapY) && Combines(b, wrapX, wrapY)
    ensures Combines(Minus(b, d, a), wrapX, wrapY)
  {
    Distributes(b.x, d, a.x, wrapX);
    Distributes(b.y, d, a.y, wrapY);
    assert d * (a.x * wrapX) + d * (a.y * wrapY) == d * (a.x * wrapX + a.y * wrapY);
  }

  lemma Distributes(b: int, d: int, a: int, w: int)
    ensures (b - d * a) * w == b * w - d * (a * w)
  {
  }

  /** The divisors of z and of b - d * z are the divisors of z and of b. */
  lemma SameDivisors(b: int, d: int, z: int, g: int)
    ensures Divides(g, b - d * z) && Divides(g, z) <==> Divides(g, z) && Divides(g, b)
  {
    if Divides(g, z) {
      if Divides(g, b) {
        DividesSum(b, -d, z, g);
      }
      if Divides(g, b - d * z) {
        DividesSum(b - d * z, d, z, g);
      }
    }
  }

  lemma DividesSum(b: int, d: int, z: int, g: int)
    requires Divides(g, b) && Divides(g, z)
    ensures Divides(g, b + d * z)
  {
    var i :| Is(b, i, g);
    var k :| Is(z, k, g);
    assert d * z == (d * k) * g;
    assert i * g + (d * k) * g == (i + d * k) * g;
    assert Is(b + d * z, i + d * k, g);
  }

  lemma DividesItself(n: int)
    ensures Divides(n, n) && Divides(n, 0)
  {
    assert Is(n, 1, n);
    assert Is(0, 0, n);
  }

  /** g divides a and b just when it divides the two wrap counts. */
  ghost predicate SameGcd(a: int, b: int, wrapX: int, wrapY: int) {
    forall g :: Divides(g, a) && Divides(g, b) <==> Divides(g, wrapX) && Divides(g, wrapY)
  }

  lemma SameGcdStep(a: int, b: int, d: int, wrapX: int, wrapY: int)
    requires SameGcd(a, b, wrapX, wrapY)
    ensures SameGcd(b - d * a, a, wrapX, wrapY)
  {
    hide Divides;
    forall g
      ensures Divides(g, b - d * a) && Divides(g, a) <==> Divides(g, wrapX) && Divides(g, wrapY)
    {
      SameDivisors(b, d, a, g);
    }
  }

  /** b.z is the greatest common divisor of the two wrap counts, up to its sign, with the multipliers that give it. */
  ghost predicate IsGcd(b: Row, wrapX: int, wrapY: int) {
    && Combines(b, wrapX, wrapY) && Divides(b.z, wrapX) && Divides(b.z, wrapY)
    && forall g :: Divides(g, wrapX) && Divides(g, wrapY) ==> Divides(g, b.z)
  }

  method EuclidLoop(wrapX: int, wrapY: int) returns (b: Row)
    ensures IsGcd(b, wrapX, wrapY)
  {
    hide Divides;
    hide SameGcd;
    var a := Row(1, 0, wrapX);
    b := Row(0, 1, wrapY);
    StartSame(wrapX, wrapY);
    while a.z != 0
      invariant Combines(a, wrapX, wrapY) && Combines(b, wrapX, wrapY) && SameGcd(a.z, b.z, wrapX, wrapY)
      decreases Abs(a.z)
    {
      var d := FloorDiv(b.z, a.z);
      MinusCombines(b, d, a, wrapX, wrapY);
      SameGcdStep(a.z, b.z, d, wrapX, wrapY);
      a, b := Row(b.x - d * a.x, b.y - d * a.y, b.z - d * a.z), a;
    }
    AtEnd(b.z, wrapX, wrapY);
  }

  lemma StartSame(wrapX: int, wrapY: int)
    ensures SameGcd(wrapX, wrapY, wrapX, wrapY)
  {
  }

  lemma AtEnd(z: int, wrapX: int, wrapY: int)
    requires SameGcd(0, z, wrapX, wrapY)
    ensures Divides(z, wrapX) && Divides(z, wrapY)
    ensures forall g :: Divides(g, wrapX) && Divides(g, wrapY) ==> Divides(g, z)
  {
    DividesItself(z);
    hide Divides;
  }

  // ------------------------------------------------------------- the other way around

  /** No number but 1 and -1 divides both. */
  ghost predicate Coprime(wrapX: int, wrapY: int) {
    forall g :: Divides(g, wrapX) && Divides(g, wrapY) ==> Abs(g) == 1
  }

  lemma UnitDivisor(g: int)
    requires Divides(g, 1) || Divides(g, -1)
    ensures Abs(g) == 1
  {
    if Divides(g, 1) {
      var k :| Is(1, k, g);
      FactorOfOne(k, g);
    } else {
      var k :| Is(-1, k, g);
      FactorOfOne(-k, g);
    }
  }

  lemma FactorOfOne(k: int, g: int)
    ensures Abs(g) != 1 ==> k * g != 1
    decreases g < 0
  {
    if g >= 2 {
      if k >= 1 {
        assert k * g >= g;
      } else {
        assert k * g <= 0;
      }
    } else if g <= -2 {
      FactorOfOne(-k, -g);
    }
  }

  lemma GcdIsUnit(b: Row, wrapX: int, wrapY: int)
    requires IsGcd(b, wrapX, wrapY)
    ensures Abs(b.z) == 1 <==> Coprime(wrapX, wrapY)
  {
    hide Divides;
    if Abs(b.z) == 1 {
      forall g | Divides(g, wrapX) && Divides(g, wrapY)
        ensures Abs(g) == 1
      {
        UnitDivisor(g);
      }
    }
  }

  datatype Basis = NoBasis | Basis(wx2: int, wy2: int)

  /**
   * A second way around the torus that crosses the first just once. The source asserts that there is one;
   * NoBasis stands for the failed assertion.
   */
  method SecondWay(wrapX: int, wrapY: int) returns (r: Basis)
    ensures r.Basis? <==> Coprime(wrapX, wrapY)
    ensures r.Basis? ==> wrapY * r.wx2 + -wrapX * r.wy2 == 1
  {
    var b := EuclidLoop(wrapX, wrapY);
    GcdIsUnit(b, wrapX, wrapY);
    hide Coprime;
    hide IsGcd;
    if Abs(b.z) != 1 {
      return NoBasis;
    }
    r := Basis(b.y * b.z, -b.x * b.z);
    CrossesOnce(b, wrapX, wrapY);
  }

  lemma CrossesOnce(b: Row, wrapX: int, wrapY: int)
    requires IsGcd(b, wrapX, wrapY) && Abs(b.z) == 1
    ensures wrapY * (b.y * b.z) + -wrapX * (-b.x * b.z) == 1
  {
    if b.z == 1 {
      assert wrapY * (b.y * b.z) + -wrapX * (-b.x * b.z) == wrapY * b.y + wrapX * b.x;
    } else {
      assert wrapY * (b.y * b.z) + -wrapX * (-b.x * b.z) == -(wrapY * b.y + wrapX * b.x);
    }
  }
}
