/** The two random number generators of the TPC-H data generator, and skipping ahead in them. */
module RandomStreams {

  const MODULUS := 2147483647
  const MULTIPLIER := 16807
  const WORD := 0x1_0000_0000_0000_0000        // 2^64
  const RNG_A := 6364136223846793005
  const RNG_C := 1

  // ----- residues ------------------------------------------------------------------------------------------

  lemma SmallMultiple(d: int, m: int)
    requires 0 < m && -m < d * m < m
    ensures d == 0
  {
  }

  lemma ModUnique(x: int, m: int, q: int, r: int)
    requires 0 < m && x == q * m + r && 0 <= r < m
    ensures x % m == r
  {
    var q' := x / m;
    var d := q - q';
    assert x == q' * m + x % m;
    assert d * m == q * m - q' * m;
    SmallMultiple(d, m);
  }

  /** Reducing a factor first does not change a product's residue. */
  lemma ModMul(x: int, y: int, m: int)
    requires 0 < m
    ensures ((x % m) * y) % m == (x * y) % m
  {
    var q, r := x / m, x % m;
    var s, t := (r * y) / m, (r * y) % m;
    assert x == q * m + r;
    assert x * y == (q * y) * m + r * y;
    assert x * y == (q * y + s) * m + t;
    ModUnique(x * y, m, q * y + s, t);
  }

  lemma ModMulBoth(x: int, y: int, m: int)
    requires 0 < m
    ensures ((x % m) * (y % m)) % m == (x * y) % m
  {
    ModMul(x, y % m, m);
    ModMul(y, x, m);
    assert x * (y % m) == (y % m) * x;
    assert x * y == y * x;
  }

  lemma ModAdd(x: int, y: int, m: int)
    requires 0 < m
    ensures (x % m + y) % m == (x + y) % m
  {
    var q, r := x / m, x % m;
    var s, t := (r + y) / m, (r + y) % m;
    assert x + y == (q + s) * m + t;
    ModUnique(x + y, m, q + s, t);
  }

  lemma ModAddBoth(x: int, y: int, m: int)
    requires 0 < m
    ensures (x % m + y % m) % m == (x + y) % m
  {
    ModAdd(x, y % m, m);
    ModAdd(y, x, m);
  }

  function Pow(a: int, n: nat): int {
    if n == 0 then 1 else a * Pow(a, n - 1)
  }

  lemma {:induction false} PowAdd(a: int, n: nat, k: nat)
    ensures Pow(a, n + k) == Pow(a, n) * Pow(a, k)
  {
    if n > 0 {
      PowAdd(a, n - 1, k);
      assert a * (Pow(a, n - 1) * Pow(a, k)) == (a * Pow(a, n - 1)) * Pow(a, k);
    } else {
      assert Pow(a, n) == 1;
    }
  }

  lemma {:induction false} PowSquare(a: int, n: nat)
    ensures Pow(a * a, n) == Pow(a, 2 * n)
  {
    if n > 0 {
      PowSquare(a, n - 1);
      assert Pow(a, 2 * n) == a * (a * Pow(a, 2 * n - 2));
      assert a * (a * Pow(a, 2 * n - 2)) == (a * a) * Pow(a, 2 * n - 2);
    }
  }

  /** The residue of a product depends on the residues of its factors. */
  lemma SameProduct(x: int, y: int, x': int, y': int, m: int)
    requires 0 < m && x % m == x' % m && y % m == y' % m
    ensures (x * y) % m == (x' * y') % m
  {
    ModMulBoth(x, y, m);
    ModMulBoth(x', y', m);
  }

  lemma ModTwice(x: int, m: int)
    requires 0 < m
    ensures (x % m) % m == x % m
  {
    ModUnique(x % m, m, 0, x % m);
  }

  lemma PowStep(a: int, n: nat)
    requires 0 < n
    ensures Pow(a, n) == a * Pow(a, n - 1)
  {
  }

  /** Reducing the base does not change a power's residue. */
  lemma {:induction false} PowMod(a: int, n: nat, m: int)
    requires 0 < m
    ensures Pow(a % m, n) % m == Pow(a, n) % m
    decreases n, 1
  {
    if n == 0 {
      assert Pow(a % m, n) == Pow(a, n);
    } else {
      PowModStep(a, n, m);
    }
  }

  lemma {:induction false} PowModStep(a: int, n: nat, m: int)
    requires 0 < m && 0 < n
    ensures Pow(a % m, n) % m == Pow(a, n) % m
    decreases n, 0
  {
    hide Pow;
    var r := a % m;
    PowMod(a, n - 1, m);
    ModTwice(a, m);
    SameProduct(r, Pow(r, n - 1), a, Pow(a, n - 1), m);
    PowStep(r, n);
    PowStep(a, n);
  }

  // ----- the multiplicative generator --------------------------------------------------------------------------

  function NextRand(x: int): (r: int)
    ensures 0 <= r < MODULUS
  {
    (x * 16807) % 2147483647
  }

  /** The seed after n draws. */
  function Draws(x: int, n: nat): int
    decreases n
  {
    if n == 0 then x else Draws(NextRand(x), n - 1)
  }

  lemma {:induction false} DrawsAdd(x: int, n: nat, k: nat)
    ensures Draws(x, n + k) == Draws(Draws(x, n), k)
    decreases n
  {
    if n > 0 {
      DrawsAdd(NextRand(x), n - 1, k);
    }
  }

  lemma Rearranged(x: int, y: int, z: int)
    ensures x * (y * z) == (y * x) * z
  {
  }

  /** One draw before what n - 1 draws do. */
  lemma PowerDraw(x: int, p: int)
    ensures (p * NextRand(x)) % MODULUS == ((MULTIPLIER * p) * x) % MODULUS
  {
    ModTwice(x * MULTIPLIER, MODULUS);
    SameProduct(p, NextRand(x), p, x * MULTIPLIER, MODULUS);
    Rearranged(p, MULTIPLIER, x);
  }

  /** n draws multiply the seed by the n-th power of the multiplier. */
  lemma {:induction false} DrawsArePower(x: int, n: nat)
    requires 0 <= x < MODULUS
    ensures Draws(x, n) == (Pow(MULTIPLIER, n) * x) % MODULUS
    decreases n
  {
    hide NextRand;
    if n > 0 {
      DrawsArePower(NextRand(x), n - 1);
      PowerDraw(x, Pow(MULTIPLIER, n - 1));
    } else {
      assert Pow(MULTIPLIER, n) * x == x;
    }
  }

  /** An odd count takes one factor out of the power. */
  lemma OddPower(mult: int, z: int, n: nat)
    requires n % 2 != 0
    ensures (Pow(mult * mult, n / 2) * ((mult * z) % MODULUS)) % MODULUS == (Pow(mult, n) * z) % MODULUS
  {
    hide Pow;
    var p := Pow(mult * mult, n / 2);
    PowSquare(mult, n / 2);
    PowStep(mult, n);
    assert n - 1 == 2 * (n / 2);
    ModTwice(mult * z, MODULUS);
    SameProduct(p, (mult * z) % MODULUS, p, mult * z, MODULUS);
    Rearranged(p, mult, z);
  }

  /** One round of the square-and-multiply loop. */
  lemma PowerRound(mult: int, z: int, n: nat, z': int)
    requires 0 < n && z' == if n % 2 != 0 then (mult * z) % MODULUS else z
    ensures (Pow((mult * mult) % MODULUS, n / 2) * z') % MODULUS == (Pow(mult, n) * z) % MODULUS
  {
    hide Pow;
    PowMod(mult * mult, n / 2, MODULUS);
    SameProduct(Pow((mult * mult) % MODULUS, n / 2), z', Pow(mult * mult, n / 2), z', MODULUS);
    if n % 2 != 0 {
      OddPower(mult, z, n);
    } else {
      PowSquare(mult, n / 2);
      assert n == 2 * (n / 2);
    }
  }

  /** NthElement: the seed after N draws, with as many rounds as N has bits and no product of 2^63 or more. */
  method NthElement(N: nat, startSeed: int) returns (z: int)
    requires 0 <= startSeed < MODULUS
    ensures z == Draws(startSeed, N) && 0 <= z < MODULUS
  {
    var n, mult := N, MULTIPLIER;
    z := startSeed;
    DrawsArePower(startSeed, N);
    while n > 0
      invariant 0 <= z < MODULUS && 0 <= mult < MODULUS && n >= 0
      invariant (Pow(mult, n) * z) % MODULUS == Draws(startSeed, N)
    {
      PowerRound(mult, z, n, if n % 2 != 0 then (mult * z) % MODULUS else z);
      NoOverflow(mult, z);
      NoOverflow(mult, mult);
      assert mult * z < 0x8000_0000_0000_0000 && mult * mult < 0x8000_0000_0000_0000;
      if n % 2 != 0 {
        z := (mult * z) % MODULUS;
      }
      n := n / 2;
      mult := (mult * mult) % MODULUS;
    }
    assert Pow(mult, 0) * z == z;
  }

  lemma Growing(x: int, y: int, z: int)
    requires x <= y && 0 <= z
    ensures z * x <= z * y
  {
  }

  lemma NoOverflow(x: int, y: int)
    requires 0 <= x < MODULUS && 0 <= y < MODULUS
    ensures 0 <= x * y < 0x8000_0000_0000_0000
  {
    Growing(y, MODULUS, x);
    Growing(x, MODULUS, MODULUS);
    Growing(0, y, x);
  }

  // ----- the linear congruential generator of 64 bits -------------------------------------------------------------

  /** Values stand for the 64 bits of the seed. */
  function NextRand64(x: int): (r: int)
    ensures 0 <= r < WORD
  {
    (x * RNG_A + RNG_C) % WORD
  }

  function Draws64(x: int, n: nat): int
    decreases n
  {
    if n == 0 then x else Draws64(NextRand64(x), n - 1)
  }

  /** 1 + a + ... + a^(n-1) */
  function Geo(a: int, n: nat): int {
    if n == 0 then 0 else Geo(a, n - 1) + Pow(a, n - 1)
  }

  lemma {:induction false} GeoAdd(a: int, n: nat, k: nat)
    ensures Geo(a, n + k) == Geo(a, n) + Pow(a, n) * Geo(a, k)
  {
    if k > 0 {
      GeoAdd(a, n, k - 1);
      PowAdd(a, n, k - 1);
      var p, g, q := Pow(a, n), Geo(a, k - 1), Pow(a, k - 1);
      assert p * (g + q) == p * g + p * q;
    } else {
      assert Pow(a, n) * Geo(a, k) == 0;
    }
  }

  /** Doubling the count. */
  lemma GeoDouble(a: int, n: nat)
    ensures Geo(a, 2 * n) == Geo(a, n) * (Pow(a, n) + 1) && Pow(a, 2 * n) == Pow(a, n) * Pow(a, n)
  {
    GeoAdd(a, n, n);
    PowAdd(a, n, n);
    assert Geo(a, n) + Pow(a, n) * Geo(a, n) == Geo(a, n) * (Pow(a, n) + 1);
  }

  lemma AffineProduct(x: int, a: int, p: int)
    ensures (x * a + 1) * p == x * (a * p) + p
  {
    assert (x * a) * p == x * (a * p);
  }

  lemma AffineStep(x: int, a: int, p: int, g: int, m: int)
    requires 0 < m
    ensures (((x * a + 1) % m) * p + g) % m == (x * (a * p) + (g + p)) % m
  {
    var y := x * a + 1;
    ModMul(y, p, m);
    SameSum((y % m) * p, y * p, g, m);
    AffineProduct(x, a, p);
  }

  lemma SameSum(x: int, x': int, y: int, m: int)
    requires 0 < m && x % m == x' % m
    ensures (x + y) % m == (x' + y) % m
  {
    ModAdd(x, y, m);
    ModAdd(x', y, m);
  }

  /** One draw before what n - 1 draws do. */
  lemma AffineDraw(x: int, p: int, g: int)
    ensures (NextRand64(x) * p + g * RNG_C) % WORD == (x * (RNG_A * p) + (g + p) * RNG_C) % WORD
  {
    AffineStep(x, RNG_A, p, g, WORD);
  }

  /** n draws as one multiplication and one addition. */
  lemma {:induction false} Draws64AreAffine(x: int, n: nat)
    requires 0 <= x < WORD
    ensures Draws64(x, n) == (x * Pow(RNG_A, n) + Geo(RNG_A, n) * RNG_C) % WORD
    decreases n
  {
    hide NextRand64;
    if n > 0 {
      Draws64AreAffine(NextRand64(x), n - 1);
      AffineDraw(x, Pow(RNG_A, n - 1), Geo(RNG_A, n - 1));
    } else {
      assert x * Pow(RNG_A, n) == x;
    }
  }

  /** x >> b for a count that is not negative. */
  function Shift(x: nat, b: nat): nat {
    if b == 0 then x else Shift(x, b - 1) / 2
  }

  /** From the count h to the count 2 h. */
  lemma DoubleRound(h: nat, apow: int, dsum: int, m: int)
    requires 0 < m && apow == Pow(RNG_A, h) % m && dsum == Geo(RNG_A, h) % m
    ensures (dsum * ((apow + 1) % m)) % m == Geo(RNG_A, 2 * h) % m && (apow * apow) % m == Pow(RNG_A, 2 * h) % m
  {
    var p, g := Pow(RNG_A, h), Geo(RNG_A, h);
    GeoDouble(RNG_A, h);
    ModAdd(p, 1, m);
    ModMulBoth(g, p + 1, m);
    ModMulBoth(p, p, m);
  }

  /** From the count k to the count k + 1. */
  lemma OddRound(k: nat, apow: int, dsum: int, m: int)
    requires 0 < m && apow == Pow(RNG_A, k) % m && dsum == Geo(RNG_A, k) % m
    ensures (dsum + apow) % m == Geo(RNG_A, k + 1) % m && (apow * RNG_A) % m == Pow(RNG_A, k + 1) % m
  {
    ModAddBoth(Geo(RNG_A, k), Pow(RNG_A, k), m);
    ModMul(Pow(RNG_A, k), RNG_A, m);
  }

  lemma LastRound(x: int, p: int, g: int, apow: int, dsum: int, m: int)
    requires 0 < m && apow == p % m && dsum == g % m
    ensures (x * apow + dsum * RNG_C) % m == (x * p + g * RNG_C) % m
  {
    ModMul(p, x, m);
    ModAddBoth(x * apow, g, m);
    ModAddBoth(x * p, g, m);
    ModAdd(g, x * apow, m);
  }

  /** AdvanceRand64: the seed after nCount draws, one round per bit of the count. */
  method AdvanceRand64(nSeed: int, nCount: nat) returns (r: int)
    requires 0 <= nSeed < WORD && nCount < 0x8000_0000_0000_0000
    ensures r == Draws64(nSeed, nCount)
  {
    if nCount == 0 {
      return nSeed;
    }
    var nBit := 0;
    while Shift(nCount, nBit) != RNG_C
      invariant 0 <= nBit && 1 <= Shift(nCount, nBit)
      decreases Shift(nCount, nBit)
    {
      nBit := nBit + 1;
    }
    var apow, dsum := RNG_A, RNG_C;
    assert Pow(RNG_A, 1) == RNG_A * Pow(RNG_A, 0) && Geo(RNG_A, 1) == Geo(RNG_A, 0) + Pow(RNG_A, 0);
    while nBit > 0
      invariant 0 <= nBit
      invariant apow == Pow(RNG_A, Shift(nCount, nBit)) % WORD && dsum == Geo(RNG_A, Shift(nCount, nBit)) % WORD
    {
      ghost var h := Shift(nCount, nBit);
      nBit := nBit - 1;
      DoubleRound(h, apow, dsum, WORD);
      dsum := (dsum * ((apow + 1) % WORD)) % WORD;
      apow := (apow * apow) % WORD;
      if Shift(nCount, nBit) % 2 == 1 {
        OddRound(2 * h, apow, dsum, WORD);
        dsum := (dsum + apow) % WORD;
        apow := (apow * RNG_A) % WORD;
      }
    }
    LastRound(nSeed, Pow(RNG_A, nCount), Geo(RNG_A, nCount), apow, dsum, WORD);
    Draws64AreAffine(nSeed, nCount);
    r := (nSeed * apow + dsum * RNG_C) % WORD;
  }
}
