/** Which suppliers supply a part: the bridge between parts and suppliers of the TPC-H data generator. */
module PartSuppliers {
  import opened RandomStreams

  const SUPP_PER_PART := 4

  /** PART_SUPP_BRIDGE for part p, the s-th of its suppliers, and total suppliers (10000 times the scale factor). */
  function Bridge(total: int, p: int, s: int): int
    requires 0 < total
  {
    (p + s * (total / SUPP_PER_PART + (p - 1) / total)) % total + 1
  }

  /** The numbers of suppliers, among those that four divides, for which the bridge works. */
  predicate Spread(total: int) {
    total > 76 && !(total % 12 == 0 && total <= 228)
  }

  /** The step between two suppliers of a part is no multiple of the total. */
  lemma StepNotDivided(q: int, b: int, d: int, k: int)
    requires 20 <= q && 0 <= b <= 19 && 1 <= d <= 3 && !(q % 3 == 0 && q <= 57)
    ensures d * (q + b) != k * (4 * q)
  {
    if k >= 2 {
      Mono(2, k, 4 * q);
    } else if k <= 0 {
      Mono(k, 0, 4 * q);
    }
  }

  lemma Mono(x: int, y: int, z: int)
    requires x <= y && 0 <= z
    ensures x * z <= y * z
  {
  }

  /** Two numbers with the same residue differ by a multiple of the modulus. */
  lemma SameResidue(x: int, y: int, m: int) returns (k: int)
    requires 0 < m && x % m == y % m
    ensures y - x == k * m
  {
    k := y / m - x / m;
    assert x == (x / m) * m + x % m && y == (y / m) * m + y % m;
  }

  lemma BlockNumber(total: int, p: int)
    requires 0 < total && 1 <= p <= 20 * total
    ensures 0 <= (p - 1) / total <= 19
  {
  }

  /** Every part of the scale (20 parts per supplier) has four different suppliers, all of them existing. */
  lemma FourSuppliers(total: int, p: int, s: int, s': int)
    requires 0 < total && total % 4 == 0 && Spread(total) && 1 <= p <= 20 * total
    requires 0 <= s < s' < SUPP_PER_PART
    ensures 1 <= Bridge(total, p, s) <= total
    ensures Bridge(total, p, s) != Bridge(total, p, s')
  {
    var q, b := total / 4, (p - 1) / total;
    Quarter(total);
    BlockNumber(total, p);
    var x, y := p + s * (q + b), p + s' * (q + b);
    if x % total == y % total {
      var k := SameResidue(x, y, total);
      Difference(p, s, s', q + b);
      StepNotDivided(q, b, s' - s, k);
    }
  }

  lemma Quarter(total: int)
    requires total % 4 == 0
    ensures total == 4 * (total / 4) && (total % 12 == 0 <==> total / 4 % 3 == 0)
  {
  }

  lemma Difference(p: int, s: int, s': int, w: int)
    ensures (p + s' * w) - (p + s * w) == (s' - s) * w
  {
  }

  /** For any other number of suppliers that four divides, some part of the scale gets the same supplier twice. */
  lemma SupplierTwice(total: int) returns (p: int, s: int, s': int)
    requires 0 < total && total % 4 == 0 && !Spread(total)
    ensures 1 <= p <= 20 * total && 0 <= s < s' < SUPP_PER_PART
    ensures Bridge(total, p, s) == Bridge(total, p, s')
  {
    var q := total / 4;
    Quarter(total);
    if q <= 19 {
      Meet(total, q, 2);
      p, s, s' := q * total + 1, 0, 2;
      Mono(q, 19, total);
    } else {
      Meet(total, q / 3, 3);
      p, s, s' := q / 3 * total + 1, 0, 3;
      Mono(q / 3, 19, total);
    }
  }

  /** In block b, the suppliers number 0 and d fall together when d steps make up the total. */
  lemma Meet(total: int, b: int, d: int)
    requires 0 < total && 0 <= b && d * (total / 4 + b) == total
    ensures 1 <= b * total + 1 && Bridge(total, b * total + 1, 0) == Bridge(total, b * total + 1, d)
  {
    BridgeInBlock(total, b, 0);
    BridgeInBlock(total, b, d);
    Once(b * total + 1, total);
    assert 0 * (total / 4 + b) == 0;
  }

  lemma BridgeInBlock(total: int, b: int, s: int)
    requires 0 < total && 0 <= b
    ensures 0 <= b * total && Bridge(total, b * total + 1, s) == (b * total + 1 + s * (total / 4 + b)) % total + 1
  {
    BlockIs(total, b);
  }

  lemma Once(x: int, m: int)
    requires 0 < m
    ensures (x + m) % m == x % m
  {
    assert (x / m + 1) * m == (x / m) * m + m;
    ModUnique(x + m, m, x / m + 1, x % m);
  }

  lemma BlockIs(total: int, b: int)
    requires 0 < total && 0 <= b
    ensures (b * total) / total == b && 0 <= b * total
  {
    Mono(0, b, total);
    var k := (b * total) / total;
    assert b * total == k * total + (b * total) % total;
    if k < b {
      Mono(k + 1, b, total);
    } else if k > b {
      Mono(b + 1, k, total);
    }
  }

  /** UnifInt, with exact arithmetic for the two floating-point operations. */
  function UnifInt(low: int, high: int, value: int): int
    requires low <= high
  {
    low + (value * (high - low + 1)) / MODULUS
  }

  /** A draw lies within its bounds. */
  lemma DrawInRange(low: int, high: int, value: int)
    requires low <= high && 0 <= value < MODULUS
    ensures low <= UnifInt(low, high, value) <= high
  {
    var w := high - low + 1;
    Mono(value, MODULUS - 1, w);
    Mono(0, value, w);
    Share(value * w, w, MODULUS);
  }

  lemma Share(x: int, w: int, m: int)
    requires 1 <= m && 0 <= x && x < m * w
    ensures 0 <= x / m < w
  {
    assert x == (x / m) * m + x % m;
    if w <= x / m {
      Mono(w, x / m, m);
    }
  }

  /** The supplier drawn for a line of an order is one of the four suppliers of its part, and exists. */
  lemma LineSupplier(total: int, p: int, value: int) returns (s: int)
    requires 0 < total && 0 <= value < MODULUS
    ensures 0 <= s < SUPP_PER_PART && Bridge(total, p, UnifInt(0, 3, value)) == Bridge(total, p, s)
    ensures 1 <= Bridge(total, p, UnifInt(0, 3, value)) <= total
  {
    DrawInRange(0, 3, value);
    s := UnifInt(0, 3, value);
  }
}
