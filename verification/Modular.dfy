/** Modular arithmetic of the web client: reduction, inverse, power, and the facts about primes they rest on. */
module Modular {
  import opened Bytes

  /** JavaScript's BigInt remainder, which takes the sign of the dividend. */
  function TruncatedRemainder(a: int, m: int): int
    requires m > 0
  {
    if a >= 0 then a % m else -((-a) % m)
  }

  /** The client's mod. */
  function Mod(value: int, m: int): int
    requires m > 0
  {
    var result := TruncatedRemainder(value, m);
    if result >= 0 then result else result + m
  }

  /** mod is the mathematical residue, for negative values too. */
  lemma ModIsResidue(value: int, m: int)
    requires m > 0
    ensures Mod(value, m) == value % m
  {
    if value < 0 {
      var q, r := (-value) / m, (-value) % m;
      assert value == (-q) * m - r;
      if r == 0 {
        ModUnique(value, -q, 0, m);
      } else {
        assert value == (-q - 1) * m + (m - r);
        ModUnique(value, -q - 1, m - r, m);
      }
    }
  }

  // ---- divisibility ----

  /** v is a multiple of m. */
  predicate Zero(m: int, v: int)
    requires m > 0
  {
    v % m == 0
  }

  /** a and b have the same residue. */
  predicate Cong(m: int, a: int, b: int)
    requires m > 0
  {
    Zero(m, a - b)
  }

  lemma ZeroMultiple(m: int, k: int)
    requires m > 0
    ensures Zero(m, m * k) && Zero(m, k * m)
  {
  }

  lemma ZeroAdd(m: int, a: int, b: int)
    requires m > 0 && Zero(m, a) && Zero(m, b)
    ensures Zero(m, a + b) && Zero(m, a - b)
  {
    assert a == (a / m) * m && b == (b / m) * m;
    assert a + b == (a / m + b / m) * m && a - b == (a / m - b / m) * m;
    ZeroMultiple(m, a / m + b / m);
    ZeroMultiple(m, a / m - b / m);
  }

  lemma ZeroMul(m: int, a: int, k: int)
    requires m > 0 && Zero(m, a)
    ensures Zero(m, a * k) && Zero(m, k * a)
  {
    assert a == (a / m) * m;
    assert a * k == ((a / m) * k) * m && k * a == a * k;
    ZeroMultiple(m, (a / m) * k);
  }

  lemma CongResidue(m: int, a: int)
    requires m > 0
    ensures Cong(m, a, a % m) && Cong(m, a % m, a)
  {
    assert a - a % m == m * (a / m);
    ZeroMultiple(m, a / m);
    ZeroMultiple(m, -(a / m));
    assert a % m - a == m * -(a / m);
  }

  lemma CongIff(m: int, a: int, b: int)
    requires m > 0
    ensures Cong(m, a, b) <==> a % m == b % m
  {
    if Cong(m, a, b) {
      var k := (a - b) / m;
      assert a == b + k * m;
      assert a == (b / m + k) * m + b % m by {
        assert (b / m + k) * m == (b / m) * m + k * m;
      }
      ModUnique(a, b / m + k, b % m, m);
    }
    if a % m == b % m {
      assert a - b == (a / m) * m - (b / m) * m;
      ZeroMultiple(m, a / m);
      ZeroMultiple(m, b / m);
      ZeroAdd(m, (a / m) * m, (b / m) * m);
    }
  }

  lemma CongTrans(m: int, a: int, b: int, c: int)
    requires m > 0 && Cong(m, a, b) && Cong(m, b, c)
    ensures Cong(m, a, c)
  {
    ZeroAdd(m, a - b, b - c);
  }

  lemma CongSym(m: int, a: int, b: int)
    requires m > 0 && Cong(m, a, b)
    ensures Cong(m, b, a)
  {
    CongIff(m, a, b);
    CongIff(m, b, a);
  }

  lemma CongAdd(m: int, a: int, b: int, c: int, d: int)
    requires m > 0 && Cong(m, a, b) && Cong(m, c, d)
    ensures Cong(m, a + c, b + d) && Cong(m, a - c, b - d)
  {
    ZeroAdd(m, a - b, c - d);
    assert (a + c) - (b + d) == (a - b) + (c - d);
    assert (a - c) - (b - d) == (a - b) - (c - d);
  }

  lemma CongMul(m: int, a: int, b: int, c: int, d: int)
    requires m > 0 && Cong(m, a, b) && Cong(m, c, d)
    ensures Cong(m, a * c, b * d)
  {
    ZeroMul(m, a - b, c);
    ZeroMul(m, c - d, b);
    ZeroAdd(m, (a - b) * c, b * (c - d));
    assert a * c - b * d == (a - b) * c + b * (c - d);
  }

  // ---- greatest common divisor ----

  /** Euclid's recursion. */
  function Gcd(a: nat, b: nat): nat
    decreases a
  {
    if a == 0 then b else Gcd(b % a, a)
  }

  /** Gcd divides both numbers, and every common divisor divides it. */
  lemma {:induction false} GcdIsGreatest(a: nat, b: nat, d: nat)
    requires a + b > 0 && d > 0
    ensures Gcd(a, b) > 0 && a % Gcd(a, b) == 0 && b % Gcd(a, b) == 0
    ensures a % d == 0 && b % d == 0 ==> Gcd(a, b) % d == 0
    decreases a
  {
    if a == 0 {
      ZeroMultiple(b, 1);
      ZeroMultiple(b, 0);
    } else {
      GcdIsGreatest(b % a, a, d);
      var g := Gcd(a, b);
      assert b == (b / a) * a + b % a;
      ZeroMul(g, a, b / a);
      ZeroAdd(g, (b / a) * a, b % a);
      if a % d == 0 && b % d == 0 {
        ZeroMul(d, a, b / a);
        ZeroAdd(d, b, (b / a) * a);
      }
    }
  }

  /** Cofactors of the greatest common divisor, by recursion on Euclid's algorithm. */
  function Cofactors(a: nat, b: nat): (st: (int, int))
    ensures a * st.0 + b * st.1 == Gcd(a, b)
    decreases a
  {
    if a == 0 then (0, 1)
    else
      var (s, t) := Cofactors(b % a, a);
      CofactorStep(a, b, s, t);
      (t - (b / a) * s, s)
  }

  lemma CofactorStep(a: nat, b: nat, s: int, t: int)
    requires a > 0
    ensures a * (t - (b / a) * s) + b * s == (b % a) * s + a * t
  {
  }

  /** The reduced inverse of value modulo p, if there is one. */
  function Inverse(value: int, p: int): (r: Result<int>)
    requires p > 1
    ensures r.Ok? ==> 0 <= r.value < p && (value * r.value) % p == 1
  {
    var s := Cofactors(value % p, p).0;
    if Gcd(value % p, p) != 1 then Err
    else
      InverseWorks(value, p);
      Ok(s % p)
  }

  lemma InverseWorks(a: int, p: int)
    requires p > 1 && Gcd(a % p, p) == 1
    ensures (a * (Cofactors(a % p, p).0 % p)) % p == 1
  {
    var (s, t) := Cofactors(a % p, p);
    CongResidue(p, a);
    CongResidue(p, s);
    CongMul(p, a, a % p, s % p, s);
    ZeroMultiple(p, -t);
    assert (a % p) * s - 1 == p * (-t);
    CongTrans(p, a * (s % p), (a % p) * s, 1);
    CongIff(p, a * (s % p), 1);
    ModUnique(1, 0, 1, p);
  }

  /** A number has at most one reduced inverse. */
  lemma InverseUnique(value: int, p: int, r: int, s: int)
    requires p > 1 && 0 <= r < p && 0 <= s < p
    requires (value * r) % p == 1 && (value * s) % p == 1
    ensures r == s
  {
    CongIff(p, value * r, value * s);
    ZeroMul(p, value * r - value * s, r);
    CongResidue(p, value * r);
    ZeroMul(p, value * r - 1, r - s);
    ZeroAdd(p, (value * r - value * s) * r, (value * r - 1) * (r - s));
    assert (value * r - value * s) * r - (value * r - 1) * (r - s) == r - s;
    CongIff(p, r, s);
    ModUnique(r, 0, r, p);
    ModUnique(s, 0, s, p);
  }

  /**
   The client's modInverse: extended Euclid on (value mod P, P).  It returns the
   reduced inverse, and throws exactly when value and P have a common divisor.
   */
  method ModInverse(value: int, p: int) returns (r: Result<int>)
    requires p > 1
    ensures r.Ok? <==> Gcd(value % p, p) == 1
    ensures r.Ok? ==> 0 <= r.value < p && (value * r.value) % p == 1
    ensures r == Inverse(value, p)
  {
    ModIsResidue(value, p);
    var low, high := Mod(value, p), p;
    var lm, hm := 1, 0;
    CongResidue(p, value);
    ZeroMultiple(p, 0 - 1);
    assert Cong(p, value * hm, high);
    while low > 1
      invariant 0 <= low < high
      invariant high > 1
      invariant Gcd(low, high) == Gcd(value % p, p)
      invariant Cong(p, value * lm, low) && Cong(p, value * hm, high)
      decreases low
    {
      var ratio := high / low;
      EuclidStep(value, p, low, high, lm, hm, ratio);
      lm, hm := hm - lm * ratio, lm;
      low, high := high - low * ratio, low;
    }
    if low != 1 {
      return Err;
    }
    assert high % 1 == 0 && Gcd(1, high) == Gcd(high % 1, 1) == 1;
    ModIsResidue(lm, p);
    CongResidue(p, lm);
    ZeroMultiple(p, 0);
    CongMul(p, value, value, lm % p, lm);
    CongTrans(p, value * (lm % p), value * lm, 1);
    CongIff(p, value * (lm % p), 1);
    ModUnique(1, 0, 1, p);
    r := Ok(Mod(lm, p));
    InverseUnique(value, p, r.value, Inverse(value, p).value);
  }

  lemma EuclidStep(value: int, p: int, low: int, high: int, lm: int, hm: int, ratio: int)
    requires p > 1 && 1 < low < high && ratio == high / low
    requires Cong(p, value * lm, low) && Cong(p, value * hm, high)
    ensures high - low * ratio == high % low
    ensures Gcd(high - low * ratio, low) == Gcd(low, high)
    ensures Cong(p, value * (hm - lm * ratio), high - low * ratio)
  {
    assert high == (high / low) * low + high % low;
    ZeroMultiple(p, 0);
    CongMul(p, value * lm, low, ratio, ratio);
    CongAdd(p, value * hm, high, value * lm * ratio, low * ratio);
    assert value * (hm - lm * ratio) == value * hm - value * lm * ratio;
  }

  // ---- powers ----

  function Pow(b: int, e: nat): int {
    if e == 0 then 1 else b * Pow(b, e - 1)
  }

  lemma {:induction false} PowAdd(b: int, e: nat, f: nat)
    ensures Pow(b, e + f) == Pow(b, e) * Pow(b, f)
  {
    if e > 0 {
      PowAdd(b, e - 1, f);
      assert b * (Pow(b, e - 1) * Pow(b, f)) == (b * Pow(b, e - 1)) * Pow(b, f);
    }
  }

  lemma {:induction false} PowSquare(b: int, e: nat)
    ensures Pow(b * b, e) == Pow(b, 2 * e) == Pow(b, e) * Pow(b, e)
  {
    PowAdd(b, e, e);
    assert 2 * e == e + e;
    if e > 0 {
      PowSquare(b, e - 1);
      PowTwice(b, 2 * e - 2);
    }
  }

  lemma PowTwice(b: int, e: nat)
    ensures Pow(b, e + 2) == b * b * Pow(b, e)
  {
  }

  lemma {:induction false} PowCong(m: int, a: int, b: int, e: nat)
    requires m > 0 && Cong(m, a, b)
    ensures Cong(m, Pow(a, e), Pow(b, e))
  {
    if e == 0 {
      ZeroMultiple(m, 0);
    } else {
      PowCong(m, a, b, e - 1);
      CongMul(m, a, b, Pow(a, e - 1), Pow(b, e - 1));
    }
  }

  /**
   The client's modPow, by squaring.  For a positive exponent it is the true power
   modulo the modulus; for zero or a negative exponent the loop does not run and the
   unreduced 1 comes back.
   */
  method ModPow(base: int, exponent: int, modulus: int) returns (result: int)
    requires modulus > 0
    ensures exponent <= 0 ==> result == 1
    ensures exponent > 0 ==> result == Pow(base, exponent) % modulus
  {
    result := 1;
    ModIsResidue(base, modulus);
    var value := Mod(base, modulus);
    if exponent <= 0 {
      return;
    }
    var power := exponent;
    ghost var goal := Pow(base, exponent);
    CongResidue(modulus, base);
    PowCong(modulus, value, base, exponent);
    while power > 0
      invariant 0 <= power <= exponent
      invariant power == 0 ==> 0 <= result < modulus
      invariant Cong(modulus, result * Pow(value, power), goal)
    {
      SquareStep(modulus, result, value, power, goal);
      if power % 2 == 1 {
        result := (result * value) % modulus;
      }
      value := (value * value) % modulus;
      power := power / 2;
    }
    CongIff(modulus, result, goal);
    ModUnique(result, 0, result, modulus);
  }

  lemma SquareStep(m: int, result: int, value: int, power: nat, goal: int)
    requires m > 0 && power > 0
    requires Cong(m, result * Pow(value, power), goal)
    ensures power % 2 == 1 ==> Cong(m, ((result * value) % m) * Pow((value * value) % m, power / 2), goal)
    ensures power % 2 == 0 ==> Cong(m, result * Pow((value * value) % m, power / 2), goal)
  {
    var half := power / 2;
    PowSquare(value, half);
    CongResidue(m, value * value);
    PowCong(m, (value * value) % m, value * value, half);
    if power % 2 == 1 {
      assert Pow(value, power) == value * Pow(value, 2 * half);
      assert result * (value * Pow(value, 2 * half)) == (result * value) * Pow(value * value, half);
      CongResidue(m, result * value);
      CongMul(m, (result * value) % m, result * value, Pow((value * value) % m, half), Pow(value * value, half));
      CongTrans(m, ((result * value) % m) * Pow((value * value) % m, half), result * Pow(value, power), goal);
    } else {
      ZeroMultiple(m, 0);
      CongMul(m, result, result, Pow((value * value) % m, half), Pow(value * value, half));
      CongTrans(m, result * Pow((value * value) % m, half), result * Pow(value, power), goal);
    }
  }

  // ---- primes ----

  ghost predicate IsPrime(p: int) {
    p > 1 && forall d :: 1 < d < p ==> p % d != 0
  }

  lemma GcdAtMost(x: nat, y: nat)
    requires x > 0
    ensures 1 <= Gcd(x, y) <= x && x % Gcd(x, y) == 0 && y % Gcd(x, y) == 0
  {
    GcdIsGreatest(x, y, 1);
    var g := Gcd(x, y);
    assert x == (x / g) * g;
    MultipleGrows(x / g, g);
  }

  /** A prime and a number it does not divide have no common divisor. */
  lemma PrimeCoprime(p: int, a: int)
    requires IsPrime(p)
    ensures Gcd(a % p, p) == 1 <==> !Zero(p, a)
  {
    if a % p != 0 {
      GcdAtMost(a % p, p);
      PrimeHasNoDivisor(p, Gcd(a % p, p));
    }
  }

  lemma PrimeHasNoDivisor(p: int, g: int)
    requires IsPrime(p) && 1 <= g < p && p % g == 0
    ensures g == 1
  {
  }

  /** Euclid's lemma. */
  lemma PrimeDividesProduct(p: int, a: int, b: int)
    requires IsPrime(p) && Zero(p, a * b)
    ensures Zero(p, a) || Zero(p, b)
  {
    if !Zero(p, a) {
      PrimeCoprime(p, a);
      var r := Inverse(a, p).value;
      CongResidue(p, a * r);
      ZeroMul(p, a * b, r);
      ZeroMul(p, a * r - 1, b);
      ZeroAdd(p, (a * b) * r, (a * r - 1) * b);
      FactorLeft(a, b, r);
    }
  }

  lemma FactorLeft(a: int, b: int, r: int)
    ensures (a * b) * r - (a * r - 1) * b == b
  {
    assert (a * r - 1) * b == (a * r) * b - b;
    assert (a * b) * r == (a * r) * b;
  }

  // ---- Fermat's little theorem, by the binomial theorem ----

  function Choose(n: nat, k: nat): nat {
    if k == 0 then 1 else if n == 0 then 0 else Choose(n - 1, k - 1) + Choose(n - 1, k)
  }

  lemma {:induction false} ChooseEdges(n: nat)
    ensures Choose(n, n) == 1
    ensures forall k :: k > n ==> Choose(n, k) == 0
  {
    if n > 0 {
      ChooseEdges(n - 1);
    }
  }

  lemma {:induction false} ChooseAbsorb(n: nat, k: nat)
    requires n >= 1 && k >= 1
    ensures k * Choose(n, k) == n * Choose(n - 1, k - 1)
  {
    if n == 1 {
      ChooseEdges(0);
      ChooseEdges(1);
    } else {
      ChooseAbsorb(n - 1, k);
      if k > 1 {
        ChooseAbsorb(n - 1, k - 1);
        AbsorbStep(n, k, Choose(n - 1, k - 1), Choose(n - 1, k), Choose(n - 2, k - 2), Choose(n - 2, k - 1));
      }
    }
  }

  lemma AbsorbStep(n: int, k: int, u: int, v: int, s: int, t: int)
    requires u == s + t && (k - 1) * u == (n - 1) * s && k * v == (n - 1) * t
    ensures k * (u + v) == n * u
  {
  }

  /** The first k + 1 terms of the expansion of (1 + a)^n. */
  function Expansion(a: int, n: nat, k: nat): int {
    Choose(n, k) * Pow(a, k) + if k == 0 then 0 else Expansion(a, n, k - 1)
  }

  lemma {:induction false} ExpansionStep(a: int, n: nat, k: nat)
    requires n >= 1 && k >= 1
    ensures Expansion(a, n, k) == Expansion(a, n - 1, k) + a * Expansion(a, n - 1, k - 1)
  {
    TermStep(a, Choose(n - 1, k - 1), Choose(n - 1, k), Pow(a, k - 1));
    if k > 1 {
      ExpansionStep(a, n, k - 1);
      Distribute(a, Choose(n - 1, k - 1) * Pow(a, k - 1), Expansion(a, n - 1, k - 2));
    }
  }

  lemma TermStep(a: int, c: nat, d: nat, w: int)
    ensures (c + d) * (a * w) == d * (a * w) + a * (c * w)
  {
  }

  lemma Distribute(a: int, x: int, y: int)
    ensures a * (x + y) == a * x + a * y
  {
  }

  /** The expansion of the power n - 1 has no term of degree n. */
  lemma LastTerm(a: int, n: nat)
    requires n >= 1
    ensures Expansion(a, n - 1, n) == Expansion(a, n - 1, n - 1)
  {
    ChooseEdges(n - 1);
    assert Choose(n - 1, n) == 0;
  }

  lemma NextPower(a: int, n: nat, w: int)
    requires n > 0 && w == Pow(a + 1, n - 1)
    ensures Pow(a + 1, n) == w + a * w
  {
    Distribute(w, a, 1);
  }

  lemma {:induction false} Binomial(a: int, n: nat)
    ensures Expansion(a, n, n) == Pow(a + 1, n)
  {
    if n > 0 {
      Binomial(a, n - 1);
      ExpansionStep(a, n, n);
      LastTerm(a, n);
      NextPower(a, n, Pow(a + 1, n - 1));
    }
  }

  lemma {:induction false} MiddleTermsVanish(a: int, p: int, k: nat)
    requires IsPrime(p) && k < p
    ensures Cong(p, Expansion(a, p, k), 1)
  {
    if k == 0 {
      ZeroMultiple(p, 0);
    } else {
      MiddleTermsVanish(a, p, k - 1);
      MiddleTerm(a, p, k);
      ZeroAdd(p, Expansion(a, p, k - 1) - 1, Choose(p, k) * Pow(a, k));
    }
  }

  lemma MiddleTerm(a: int, p: int, k: nat)
    requires IsPrime(p) && 0 < k < p
    ensures Zero(p, Choose(p, k) * Pow(a, k))
  {
    ChooseAbsorb(p, k);
    ZeroMultiple(p, Choose(p - 1, k - 1));
    PrimeDividesProduct(p, k, Choose(p, k));
    ModUnique(k, 0, k, p);
    ZeroMul(p, Choose(p, k), Pow(a, k));
  }

  /** Fermat's little theorem for non-negative bases. */
  lemma {:induction false} Fermat(a: nat, p: int)
    requires IsPrime(p)
    ensures Cong(p, Pow(a, p), a)
  {
    ZeroMultiple(p, 0);
    if a == 0 {
      assert Pow(0, p) == 0;
    } else {
      Fermat(a - 1, p);
      Binomial(a - 1, p);
      MiddleTermsVanish(a - 1, p, p - 1);
      ChooseEdges(p);
      CongAdd(p, Expansion(a - 1, p, p - 1), 1, Pow(a - 1, p), a - 1);
    }
  }

  predicate IsRoot(p: int, v: int, b: int)
    requires p > 0
  {
    (b * b) % p == v % p
  }

  ghost predicate IsSquare(p: int, v: int)
    requires p > 0
  {
    exists b :: IsRoot(p, v, b)
  }

  /**
   For a prime that is 3 modulo 4, raising a square to (p + 1) / 4 gives a square root
   of it; for a number that is not a square nothing can.
   */
  lemma SquareRoot(p: int, v: int, y: int)
    requires IsPrime(p) && p % 4 == 3
    requires y == Pow(v, (p + 1) / 4) % p
    ensures IsRoot(p, v, y) <==> IsSquare(p, v)
  {
    if b :| IsRoot(p, v, b) {
      var c := b % p;
      var e := (p + 1) / 4;
      CongResidue(p, b);
      CongMul(p, b, c, b, c);
      CongIff(p, b * b, c * c);
      CongIff(p, v, c * c);
      PowCong(p, v, c * c, e);
      CongResidue(p, Pow(v, e));
      CongTrans(p, y, Pow(v, e), Pow(c * c, e));
      CongMul(p, y, Pow(c * c, e), y, Pow(c * c, e));
      PowSquare(c, e);
      PowSquare(c * c, e);
      PowSquare(c, 2 * e);
      assert Pow(c * c, 2 * e) == Pow(c, p + 1) == c * Pow(c, p);
      Fermat(c, p);
      ZeroMultiple(p, 0);
      CongMul(p, c, c, Pow(c, p), c);
      CongTrans(p, y * y, c * Pow(c, p), c * c);
      CongIff(p, y * y, c * c);
    }
  }
}
