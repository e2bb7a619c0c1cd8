/**
 * JavaScript's `Number(n)` of a bigint: 53 significant bits, to the nearest, ties to even, and
 * a sign. Values between -2^53 and 2^53 are exact.
 */
module JsNumber {
  const EXACT: int := 0x20_0000_0000_0000

  predicate IsPowerOfTwo(n: nat) { n == 1 || (n > 0 && n % 2 == 0 && IsPowerOfTwo(n / 2)) }

  /** The distance between neighbouring numbers at `v`. */
  function Unit(v: nat): (u: nat)
    ensures u >= 1 && IsPowerOfTwo(u)
    ensures v < EXACT ==> u == 1
    ensures v >= EXACT ==> u * EXACT <= 2 * v
    ensures v < u * EXACT
  {
    if v < EXACT then 1 else 2 * Unit(v / 2)
  }

  function RoundTo(v: nat, u: nat): nat
    requires u >= 1
  {
    var q, r := v / u, v % u;
    if 2 * r < u || (2 * r == u && q % 2 == 0) then q * u else q * u + u
  }

  function Abs(v: int): nat { if v < 0 then -v else v }

  /** The sign is kept apart from the significant bits. */
  function Number(v: int): (n: int)
    ensures Abs(v) < EXACT ==> n == v
    ensures v >= 0 ==> n >= 0
  {
    if Abs(v) < EXACT then v else if v < 0 then -(RoundTo(Abs(v), Unit(Abs(v))) as int) else RoundTo(v, Unit(v))
  }

  /** Survives the conversion. */
  predicate Representable(v: int) { Abs(v) < EXACT || Abs(v) % Unit(Abs(v)) == 0 }

  lemma RoundsNearby(v: nat, u: nat)
    requires u >= 1
    ensures -(u as int) <= 2 * (RoundTo(v, u) - v) <= u
    ensures RoundTo(v, u) == v <==> v % u == 0
  {
    assert v == v / u * u + v % u;
  }

  function Times(k: nat, u: nat): nat { k * u }

  ghost predicate EvenMultiple(n: nat, u: nat) { exists k: nat :: n == Times(k, 2 * u) }

  lemma EvenCount(n: nat, q: nat, u: nat)
    requires q % 2 == 0 && n == q * u
    ensures EvenMultiple(n, u)
  {
    var k := q / 2;
    assert q == k + k;
    assert n == (k + k) * u;
    assert (k + k) * u == k * u + k * u;
    assert k * (2 * u) == 2 * (k * u);
    assert n == Times(k, 2 * u);
  }

  lemma OffByHalf(v: nat, u: nat)
    requires u >= 1 && 2 * Abs(RoundTo(v, u) - v) == u
    ensures 2 * (v % u) == u
  {
    assert v == v / u * u + v % u;
  }

  /** Halfway between two multiples of `u`, the even one is taken. */
  lemma TiesGoEven(v: nat, u: nat)
    requires u >= 1 && 2 * (v % u) == u
    ensures EvenMultiple(RoundTo(v, u), u)
  {
    var q := v / u;
    if q % 2 == 0 {
      EvenCount(q * u, q, u);
    } else {
      EvenCount((q + 1) * u, q + 1, u);
    }
  }

  /**
   * A conversion changes nothing exactly for representable values, and is off by half a unit at most;
   * halfway between two numbers it takes the one with an even number of units.
   */
  lemma NumberIsNearest(v: int)
    ensures Number(v) == v <==> Representable(v)
    ensures -(Unit(Abs(v)) as int) <= 2 * (Number(v) - v) <= Unit(Abs(v))
    ensures 2 * Abs(Number(v) - v) == Unit(Abs(v)) ==> EvenMultiple(Abs(Number(v)), Unit(Abs(v)))
  {
    var a, u := Abs(v), Unit(Abs(v));
    RoundsNearby(a, u);
    if 2 * Abs(Number(v) - v) == u {
      assert 2 * (a % u) == u by { OffByHalf(a, u); }
      TiesGoEven(a, u);
    }
  }

  /** Varints have at most 70 bits: their conversion is off by less than 2^17. */
  lemma NumberOfVarint(v: nat)
    requires v < 0x40_00000000_00000000
    ensures -0x2_0000 < Number(v) - v < 0x2_0000
  {
    NumberIsNearest(v);
  }

  /** The first integer that is lost. */
  lemma FirstLost()
    ensures Number(EXACT + 1) == EXACT && !Representable(EXACT + 1)
  {
    assert Unit((EXACT + 1) / 2) == 1 && Unit(EXACT + 1) == 2;
  }
}
