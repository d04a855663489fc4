/** The 32-bit floating point numbers of variable scores, kept in unsigned integers. */
module SoftFloat {
  import opened Arithmetic

  const FLTCARRY: nat := 0x2000000
  const FLTMSB: nat := 0x1000000
  const INFFLT: nat := 0xffffffff
  const EPSFLT: nat := 1
  const FLTMINEXPONENT := -128
  const FLTMAXEXPONENT := 127

  /** A number as it is encoded: 8 bits of biased exponent and 24 bits of mantissa below the hidden one. */
  type Flt = u: nat | u <= INFFLT

  function Mantissa(u: Flt): (m: nat)
    ensures FLTMSB <= m < FLTCARRY
  {
    u % FLTMSB + FLTMSB
  }

  function Exponent(u: Flt): (e: int)
    ensures FLTMINEXPONENT <= e <= FLTMAXEXPONENT
  {
    u / FLTMSB - 128
  }

  /** What a number stands for, in units of 2^-128. The encoding 0 stands for zero. */
  function Value(u: Flt): nat {
    if u == 0 then 0 else Mantissa(u) * Pow2(Exponent(u) + 128)
  }

  /** The exact product, at a scale of 2^128. */
  function Product(a: Flt, b: Flt): nat {
    Value(a) * Value(b)
  }

  /** r is the greatest number not above x / d. */
  ghost predicate IsFloor(r: Flt, x: nat, d: nat) {
    Value(r) * d <= x && forall u: Flt :: Value(u) * d <= x ==> u <= r
  }

  /** Numbers are ordered like their encodings. */
  lemma ValueNext(u: Flt)
    requires u < INFFLT
    ensures Value(u) < Value(u + 1)
  {
    if u > 0 {
      var q, m := u / FLTMSB, u % FLTMSB;
      if m + 1 < FLTMSB {
        assert (u + 1) / FLTMSB == q && (u + 1) % FLTMSB == m + 1;
        Distribute(Mantissa(u), 1, Pow2(q));
      } else {
        assert (u + 1) / FLTMSB == q + 1 && (u + 1) % FLTMSB == 0;
        assert Pow2(q + 1) == 2 * Pow2(q);
        Distribute(FLTCARRY - 1, 1, Pow2(q));
        assert FLTMSB * Pow2(q + 1) == FLTCARRY * Pow2(q);
      }
    }
  }

  lemma {:induction false} ValueMono(u: Flt, w: Flt)
    requires u < w
    ensures Value(u) < Value(w)
    decreases w - u
  {
    ValueNext(w - 1);
    if u < w - 1 {
      ValueMono(u, w - 1);
    }
  }

  /** A number is the greatest not above x / d if it is not above and the next one is. */
  lemma FloorIs(r: Flt, x: nat, d: nat)
    requires d > 0 && Value(r) * d <= x && (r < INFFLT ==> x < Value(r + 1) * d)
    ensures IsFloor(r, x, d)
  {
    forall u: Flt | Value(u) * d <= x
      ensures u <= r
    {
      if u > r {
        if u > r + 1 {
          ValueMono(r + 1, u);
          ScaleMono(Value(r + 1), Value(u), d);
        }
        assert false;
      }
    }
  }

  lemma ScaleMono(a: nat, b: nat, d: nat)
    requires a <= b
    ensures a * d <= b * d
  {
  }

  /** There is only one such number, and it grows with x. */
  lemma FloorMono(r: Flt, x: nat, s: Flt, y: nat, d: nat)
    requires IsFloor(r, x, d) && IsFloor(s, y, d) && x <= y
    ensures r <= s && (x == y ==> r == s)
  {
  }

  /** Packs a mantissa with its hidden bit and an exponent. */
  function Pack(m: nat, e: int): (u: Flt)
    requires FLTMSB <= m < FLTCARRY && FLTMINEXPONENT <= e <= FLTMAXEXPONENT
    ensures Mantissa(u) == m && Exponent(u) == e
  {
    m - FLTMSB + (e + 128) * FLTMSB
  }

  /** m 2^e, cut off to the bits of the mantissa, is the greatest number not above x / d. */
  lemma PackFloor(m: nat, e: int, x: nat, d: nat)
    requires FLTMSB <= m < FLTCARRY && FLTMINEXPONENT <= e <= FLTMAXEXPONENT && d > 0
    requires m * Pow2(e + 128) * d <= x < (m + 1) * Pow2(e + 128) * d
    ensures IsFloor(Pack(m, e), x, d)
  {
    var u := Pack(m, e);
    PackValue(m, e);
    if u < INFFLT {
      NextPack(m, e);
    }
    hide Pow2, Value, Pack;
    ScaleMono(Value(u), m * Pow2(e + 128), d);
    FloorIs(u, x, d);
  }

  lemma PackValue(m: nat, e: int)
    requires FLTMSB <= m < FLTCARRY && FLTMINEXPONENT <= e <= FLTMAXEXPONENT
    ensures Value(Pack(m, e)) <= m * Pow2(e + 128)
  {
  }

  lemma NextPack(m: nat, e: int)
    requires FLTMSB <= m < FLTCARRY && FLTMINEXPONENT <= e <= FLTMAXEXPONENT && Pack(m, e) < INFFLT
    ensures Value(Pack(m, e) + 1) == (m + 1) * Pow2(e + 128)
  {
    var u := Pack(m, e);
    if m + 1 < FLTCARRY {
      assert u + 1 == Pack(m + 1, e);
    } else {
      assert u + 1 == (e + 129) * FLTMSB;
      assert Mantissa(u + 1) == FLTMSB && Exponent(u + 1) == e + 1;
      assert Pow2(e + 129) == 2 * Pow2(e + 128);
      assert FLTMSB * (2 * Pow2(e + 128)) == FLTCARRY * Pow2(e + 128);
    }
  }

  // ---------- addition ----------

  /** The bits of m above the lowest k. */
  lemma QuotientNat(m: nat, p: nat)
    requires p > 0
    ensures m / p >= 0
  {
  }

  function Shr(m: nat, k: nat): nat {
    QuotientNat(m, Pow2(k));
    m / Pow2(k)
  }

  /** Shifting the smaller mantissa right loses less than one unit of the greater one. */
  lemma SumBounds(ma: nat, mb: nat, delta: nat, q: nat, s: nat)
    requires s == ma + Shr(mb, delta)
    ensures s * (Pow2(delta) * q) <= ma * (Pow2(delta) * q) + mb * q
    ensures q > 0 ==> ma * (Pow2(delta) * q) + mb * q < (s + 1) * (Pow2(delta) * q)
  {
    hide Pow2;
    var p := Pow2(delta);
    var h, rem := mb / p, mb % p;
    assert mb == h * p + rem by { DivMod(mb, p); }
    Distribute(h * p, rem, q);
    Associate(h, p, q);
    Distribute(ma, h, p * q);
    Distribute(s, 1, p * q);
    if q > 0 {
      ScaleLess(rem, p, q);
    }
  }

  lemma DivMod(a: nat, b: nat)
    requires b > 0
    ensures a == a / b * b + a % b && a % b < b
  {
  }

  lemma ScaleLess(a: nat, b: nat, q: nat)
    requires a < b && q > 0
    ensures a * q < b * q
  {
  }

  /** A sum with carry loses one more bit. */
  lemma CarryBounds(s: nat, p: nat, x: nat)
    requires s * p <= x < (s + 1) * p
    ensures (s / 2) * (2 * p) <= x < (s / 2 + 1) * (2 * p)
  {
    var h := s / 2;
    Associate(h, 2, p);
    Associate(h + 1, 2, p);
    ScaleMono(h * 2, s, p);
    ScaleMono(s + 1, (h + 1) * 2, p);
  }

  /** The greatest number is INFFLT. */
  lemma InfFloor(x: nat, d: nat)
    requires d > 0 && x >= FLTCARRY * Pow2(255) * d
    ensures IsFloor(INFFLT, x, d)
  {
    assert Mantissa(INFFLT) == FLTCARRY - 1 && Exponent(INFFLT) == 127;
    ScaleMono(FLTCARRY - 1, FLTCARRY, Pow2(255));
    ScaleMono(Value(INFFLT), FLTCARRY * Pow2(255), d);
  }

  lemma Unpacked(u: Flt)
    requires u > 0
    ensures Pack(Mantissa(u), Exponent(u)) == u && Value(u) == Mantissa(u) * Pow2(Exponent(u) + 128)
  {
  }

  /** x, without the bits below the last one of a mantissa with the given exponent. */
  ghost predicate Truncated(m: nat, e: int, x: nat) {
    e + 128 >= 0 && m * Pow2(e + 128) <= x < (m + 1) * Pow2(e + 128)
  }

  lemma TruncatedPack(m: nat, e: int, x: nat)
    requires Truncated(m, e, x) && FLTMSB <= m < FLTCARRY && e <= FLTMAXEXPONENT
    ensures IsFloor(Pack(m, e), x, 1)
  {
    hide Pow2, IsFloor, Pack;
    PackFloor(m, e, x, 1);
  }

  lemma TruncatedCarry(m: nat, e: int, x: nat)
    requires Truncated(m, e, x)
    ensures Truncated(m / 2, e + 1, x)
  {
    hide Pow2;
    CarryBounds(m, Pow2(e + 128), x);
    Doubled(e + 128);
  }

  lemma TruncatedInf(m: nat, x: nat)
    requires Truncated(m, FLTMAXEXPONENT, x) && m >= FLTCARRY
    ensures IsFloor(INFFLT, x, 1)
  {
    hide Pow2, IsFloor;
    ScaleMono(FLTCARRY, m, Pow2(255));
    InfFloor(x, 1);
  }

  /** The sum of the mantissas, at the greater exponent, is the exact sum rounded down. */
  lemma SumFloor(x: Flt, y: Flt)
    requires 0 < y <= x
    ensures Exponent(y) <= Exponent(x) && Pack(Mantissa(x), Exponent(x)) == x
    ensures Truncated(Mantissa(x) + Shr(Mantissa(y), Exponent(x) - Exponent(y)), Exponent(x), Value(x) + Value(y))
  {
    hide Value, Mantissa, Exponent, Pack, Pow2, Shr;
    Unpacked(x);
    Unpacked(y);
    ExponentMono(y, x);
    var delta, k := Exponent(x) - Exponent(y), Exponent(y) + 128;
    Pow2Add(delta, k);
    SumBounds(Mantissa(x), Mantissa(y), delta, Pow2(k), Mantissa(x) + Shr(Mantissa(y), delta));
  }

  /** The greatest number not above the exact sum. */
  method AddFlt(a: Flt, b: Flt) returns (r: Flt)
    ensures IsFloor(r, Value(a) + Value(b), 1)
  {
    hide IsFloor, Truncated, Value, Mantissa, Exponent, Pack, Pow2, Shr;
    var x, y := a, b;
    if x < y {
      x, y := y, x;
    }
    if y == 0 {
      SelfFloor(x);
      return x;
    }
    SumFloor(x, y);
    var ma, ea, mb, eb := Mantissa(x), Exponent(x), Mantissa(y), Exponent(y);
    var delta := ea - eb;
    ShrFacts(mb, delta);
    mb := if delta < 32 then Shr(mb, delta) else 0;
    if mb == 0 {
      TruncatedPack(ma, ea, Value(a) + Value(b));
      return x;
    }
    ma := ma + mb;
    if ma >= FLTCARRY {
      if ea == FLTMAXEXPONENT {
        TruncatedInf(ma, Value(a) + Value(b));
        return INFFLT;
      }
      TruncatedCarry(ma, ea, Value(a) + Value(b));
      ea := ea + 1;
      ma := ma / 2;
    }
    TruncatedPack(ma, ea, Value(a) + Value(b));
    r := Pack(ma, ea);
  }

  lemma Doubled(k: nat)
    ensures Pow2(k + 1) == 2 * Pow2(k)
  {
  }

  lemma SelfFloor(x: Flt)
    ensures IsFloor(x, Value(x) + Value(0), 1)
  {
    if x < INFFLT {
      ValueNext(x);
    }
    FloorIs(x, Value(x), 1);
  }

  lemma ExponentMono(y: Flt, x: Flt)
    requires y <= x
    ensures Exponent(y) <= Exponent(x)
  {
  }

  lemma Pow2At25()
    ensures Pow2(25) == FLTCARRY && Pow2(24) == FLTMSB
  {
    assert Pow2(4) == 16 && Pow2(5) == 32;
    Pow2Add(5, 5);
    Pow2Add(10, 10);
    Pow2Add(20, 4);
    Pow2Add(20, 5);
  }

  lemma ShrFacts(m: nat, delta: nat)
    requires m < FLTCARRY
    ensures delta >= 32 ==> Shr(m, delta) == 0
    ensures Shr(m, delta) <= m
  {
    Pow2At25();
    if delta >= 32 {
      Pow2Mono(25, delta);
    }
    hide Pow2;
    DivSmall(m, Pow2(delta));
  }

  lemma DivSmall(m: nat, p: nat)
    requires p >= 1
    ensures m / p <= m && (m < p ==> m / p == 0)
  {
  }

  // ---------- multiplication ----------

  /** The exponent of the product of two numbers, before a carry. */
  function ProductExponent(a: Flt, b: Flt): int {
    Exponent(a) + Exponent(b) + 24
  }

  lemma Rearrange(a: int, p: int, b: int, q: int)
    ensures (a * p) * (b * q) == (a * b) * (p * q)
  {
    Associate(a, p, b * q);
    Associate(p, b, q);
    Associate(b, p, q);
    Associate(a, b, p * q);
    assert p * (b * q) == b * (p * q);
  }

  /** The exact product of two numbers, in units of 2^-256. */
  lemma ProductIs(a: Flt, b: Flt)
    requires a > 0 && b > 0
    ensures Exponent(a) + Exponent(b) + 256 >= 0
    ensures Product(a, b) == (Mantissa(a) * Mantissa(b)) * Pow2(Exponent(a) + Exponent(b) + 256)
  {
    Pow2Add(Exponent(a) + 128, Exponent(b) + 128);
    Rearrange(Mantissa(a), Pow2(Exponent(a) + 128), Mantissa(b), Pow2(Exponent(b) + 128));
  }

  lemma MantissaProduct(ma: nat, mb: nat)
    requires FLTMSB <= ma < FLTCARRY && FLTMSB <= mb < FLTCARRY
    ensures FLTMSB * FLTMSB <= ma * mb < FLTCARRY * FLTCARRY
  {
    ScaleMono(FLTMSB, ma, FLTMSB);
    ScaleMono(FLTMSB, mb, ma);
    ScaleMono(ma, FLTCARRY, mb);
    ScaleLess(mb, FLTCARRY, FLTCARRY);
  }

  /** Cutting off the lowest 24 bits of the product of the mantissas. */
  lemma ProductBounds(m: nat, e: int, accu: nat)
    requires e >= FLTMINEXPONENT && accu == m / FLTMSB
    ensures accu * Pow2(e + 128) * Pow2(128) <= m * Pow2(e + 232)
    ensures m * Pow2(e + 232) < (accu + 1) * Pow2(e + 128) * Pow2(128)
  {
    var p := Pow2(e + 232);
    Pow2At25();
    Pow2Add(e + 128, 104);
    Pow2Add(24, 104);
    hide Pow2;
    var q, r := Pow2(e + 128), Pow2(104);
    assert p == q * r && Pow2(128) == FLTMSB * r;
    Rearrange(accu, q, FLTMSB, r);
    Rearrange(accu + 1, q, FLTMSB, r);
    DivMod(m, FLTMSB);
    Distribute(accu, 1, FLTMSB);
    PositiveProduct(q, r);
    ScaleMono(accu * FLTMSB, m, p);
    ScaleLess(m, (accu + 1) * FLTMSB, p);
    Commute(accu, FLTMSB, p);
  }

  lemma PositiveProduct(a: nat, b: nat)
    requires a > 0 && b > 0
    ensures a * b > 0
  {
  }

  lemma Commute(a: int, b: int, c: int)
    ensures a * b * c == b * a * c
  {
  }

  /** A product that is too large for the exponents. */
  lemma ProductInf(m: nat, e: int)
    requires FLTMSB * FLTMSB <= m && (e > FLTMAXEXPONENT || (e == FLTMAXEXPONENT && FLTCARRY * FLTMSB <= m))
    ensures IsFloor(INFFLT, m * Pow2(e + 232), Pow2(128))
  {
    hide Pow2, IsFloor;
    if e > FLTMAXEXPONENT {
      Pow2Mono(360, e + 232);
      ScaleMono(Pow2(360), Pow2(e + 232), m);
      Doubled(255);
      InfScale(m, FLTMSB, 256);
      assert FLTMSB * (2 * Pow2(255)) == FLTCARRY * Pow2(255);
    } else {
      InfScale(m, FLTCARRY, 255);
    }
    InfFloor(m * Pow2(e + 232), Pow2(128));
  }

  lemma InfScale(m: nat, k: nat, f: nat)
    requires k * FLTMSB <= m
    ensures m * Pow2(f + 104) >= k * Pow2(f) * Pow2(128)
    ensures Pow2(128) > 0
  {
    hide Pow2;
    InfPowers();
    Pow2Add(f, 104);
    ScaleSplit(m, k, FLTMSB, Pow2(f), Pow2(104));
  }

  lemma InfPowers()
    ensures Pow2(128) == FLTMSB * Pow2(104)
  {
    Pow2At25();
    hide Pow2;
    Pow2Add(24, 104);
  }

  lemma ScaleSplit(m: nat, k: nat, c: nat, p: nat, q: nat)
    requires k * c <= m
    ensures k * p * (c * q) <= m * (p * q)
  {
    Rearrange(k, p, c, q);
    ScaleMono(k * c, m, p * q);
  }

  /** r is the greatest number not above x / d exactly if x lies between it and the next one. */
  lemma FloorExactly(r: Flt, x: nat, d: nat)
    requires d > 0 && r < INFFLT
    ensures IsFloor(r, x, d) <==> Value(r) * d <= x < Value(r + 1) * d
  {
    if Value(r) * d <= x < Value(r + 1) * d {
      FloorIs(r, x, d);
    }
  }

  /** When multiplication returns the greatest number not above the exact product: unless the exponent underflows,
      or it does so by one and the product happens to round down to EPSFLT. */
  predicate Multipliable(a: Flt, b: Flt) {
    || a == 0 || b == 0
    || ProductExponent(a, b) >= FLTMINEXPONENT
    || (ProductExponent(a, b) == FLTMINEXPONENT - 1 &&
        (FLTMSB + 1) * FLTCARRY <= Mantissa(a) * Mantissa(b) < (FLTMSB + 2) * FLTCARRY)
  }

  lemma SmallValues()
    ensures Value(1) == FLTMSB + 1 && Value(2) == FLTMSB + 2
  {
    assert Pow2(0) == 1;
  }

  /** A product whose exponent underflows by one lies at or above EPSFLT only if its mantissas are large enough. */
  lemma EpsNear(m: nat)
    ensures (FLTMSB + 1) * Pow2(128) <= m * Pow2(103) < (FLTMSB + 2) * Pow2(128)
      <==> (FLTMSB + 1) * FLTCARRY <= m < (FLTMSB + 2) * FLTCARRY
  {
    hide Pow2;
    Pow2At25();
    Pow2Add(25, 103);
    var p := Pow2(103);
    Associate(FLTMSB + 1, FLTCARRY, p);
    Associate(FLTMSB + 2, FLTCARRY, p);
    Cancel((FLTMSB + 1) * FLTCARRY, m, p);
    Cancel((FLTMSB + 2) * FLTCARRY, m, p);
  }

  /** One whose exponent underflows by more lies below EPSFLT. */
  lemma EpsFar(m: nat, k: nat)
    requires m < FLTCARRY * FLTCARRY && k < 103
    ensures m * Pow2(k) < (FLTMSB + 1) * Pow2(128)
  {
    hide Pow2;
    Pow2At25();
    Pow2Add(25, 103);
    Pow2Mono(k + 1, 103);
    Doubled(k);
    FarBelow(m, Pow2(k), Pow2(103));
  }

  lemma EpsFloor(a: Flt, b: Flt)
    requires a > 0 && b > 0 && ProductExponent(a, b) < FLTMINEXPONENT
    ensures IsFloor(EPSFLT, Product(a, b), Pow2(128)) <==> Multipliable(a, b)
  {
    hide Pow2, IsFloor, Value, Mantissa, Exponent, Multipliable;
    ProductIs(a, b);
    MantissaProduct(Mantissa(a), Mantissa(b));
    SmallValues();
    FloorExactly(EPSFLT, Product(a, b), Pow2(128));
    EpsCondition(a, b);
    if ProductExponent(a, b) == -129 {
      EpsNear(Mantissa(a) * Mantissa(b));
    } else {
      EpsFar(Mantissa(a) * Mantissa(b), ProductExponent(a, b) + 232);
    }
  }

  lemma EpsCondition(a: Flt, b: Flt)
    requires a > 0 && b > 0 && ProductExponent(a, b) < FLTMINEXPONENT
    ensures Multipliable(a, b) <==> (
      ProductExponent(a, b) == -129 && (FLTMSB + 1) * FLTCARRY <= Mantissa(a) * Mantissa(b) < (FLTMSB + 2) * FLTCARRY)
  {
  }

  lemma Cancel(a: nat, b: nat, p: nat)
    requires p > 0
    ensures a * p <= b * p <==> a <= b
  {
    if a <= b {
      ScaleMono(a, b, p);
    } else {
      ScaleLess(b, a, p);
    }
  }

  lemma FarBelow(m: nat, q: nat, p: nat)
    requires m < FLTCARRY * FLTCARRY && 2 * q <= p && p > 0
    ensures m * q < (FLTMSB + 1) * (FLTCARRY * p)
  {
    ScaleMono(2 * q, p, m);
    Associate(FLTMSB, FLTCARRY, p);
    ScaleMono(m, FLTCARRY * FLTCARRY, p);
    assert m * (2 * q) == 2 * (m * q);
    Distribute(FLTMSB, 1, FLTCARRY * p);
  }

  /** The greatest number not above the exact product, exactly if the numbers are multipliable. */
  method MulFlt(a: Flt, b: Flt) returns (r: Flt)
    ensures IsFloor(r, Product(a, b), Pow2(128)) <==> Multipliable(a, b)
    ensures !Multipliable(a, b) ==> r == EPSFLT
  {
    hide IsFloor, Value, Mantissa, Exponent, Pack, Pow2;
    var x, y := a, b;
    if x < y {
      x, y := y, x;
    }
    assert Product(a, b) == Product(x, y);
    assert Mantissa(a) * Mantissa(b) == Mantissa(x) * Mantissa(y);
    if y == 0 {
      ZeroFloor(Value(x));
      return 0;
    }
    var m := Mantissa(x) * Mantissa(y);
    ghost var exact := Product(a, b);
    ProductIs(x, y);
    MantissaProduct(Mantissa(x), Mantissa(y));
    var e := Exponent(x) + Exponent(y) + 24;
    if e > FLTMAXEXPONENT {
      ProductInf(m, e);
      return INFFLT;
    }
    if e < FLTMINEXPONENT {
      EpsFloor(x, y);
      return EPSFLT;
    }
    var accu := m / FLTMSB;
    AccuRange(m);
    ProductBounds(m, e, accu);
    if accu >= FLTCARRY {
      if e == FLTMAXEXPONENT {
        ProductInf(m, e);
        return INFFLT;
      }
      ScaledCarry(accu, Pow2(e + 128), exact, Pow2(128));
      Doubled(e + 128);
      e := e + 1;
      accu := accu / 2;
    }
    PackFloor(accu, e, exact, Pow2(128));
    r := Pack(accu, e);
  }

  lemma ZeroFloor(v: nat)
    ensures IsFloor(0, v * Value(0), Pow2(128))
  {
    assert v * 0 == 0;
    Pow2Mono(0, 128);
    FloorIs(0, 0, Pow2(128));
  }

  lemma AccuRange(m: nat)
    requires FLTMSB * FLTMSB <= m < FLTCARRY * FLTCARRY
    ensures FLTMSB <= m / FLTMSB < 2 * FLTCARRY
    ensures m / FLTMSB >= FLTCARRY ==> FLTCARRY * FLTMSB <= m
  {
  }

  lemma ScaledCarry(s: nat, p: nat, x: nat, d: nat)
    requires s * p * d <= x < (s + 1) * p * d
    ensures (s / 2) * (2 * p) * d <= x < (s / 2 + 1) * (2 * p) * d
  {
    Associate(s, p, d);
    Associate(s + 1, p, d);
    CarryBounds(s, p * d, x);
    Associate(s / 2, 2 * p, d);
    Associate(s / 2 + 1, 2 * p, d);
    Associate(2, p, d);
  }

  // ---------- what follows ----------

  /** Bumping a score never lowers it, and a greater score stays ahead when both are bumped. */
  lemma BumpRaises(a: Flt, b: Flt, inc: Flt, r: Flt, s: Flt)
    requires IsFloor(r, Value(a) + Value(inc), 1) && IsFloor(s, Value(b) + Value(inc), 1)
    ensures r >= a
    ensures a <= b ==> r <= s
  {
    hide Value;
    assert Value(a) * 1 <= Value(a) + Value(inc);
    if a < b {
      ValueMono(a, b);
    }
    if a <= b {
      FloorMono(r, Value(a) + Value(inc), s, Value(b) + Value(inc), 1);
    }
  }

  /** Two results for the same product are the same, and products grow with their factors. */
  lemma ProductMono(a: Flt, b: Flt, c: Flt, d: Flt, r: Flt, s: Flt)
    requires IsFloor(r, Product(a, b), Pow2(128)) && IsFloor(s, Product(c, d), Pow2(128))
    ensures a <= c && b <= d ==> r <= s
    ensures a == d && b == c ==> r == s
  {
    hide IsFloor, Value, Pow2;
    if a <= c && b <= d {
      ValuesMono(a, c);
      ValuesMono(b, d);
      ScaleMono(Value(a), Value(c), Value(b));
      ScaleMono(Value(b), Value(d), Value(c));
    }
    if (a <= c && b <= d) || (a == d && b == c) {
      FloorMono(r, Product(a, b), s, Product(c, d), Pow2(128));
    }
    if a == d && b == c {
      FloorMono(s, Product(c, d), r, Product(a, b), Pow2(128));
    }
  }

  lemma ValuesMono(a: Flt, c: Flt)
    requires a <= c
    ensures Value(a) <= Value(c)
  {
    if a < c {
      ValueMono(a, c);
    }
  }

  /** The product returned for the two least numbers, the least number, is above the exact one. */
  lemma UnderflowExample()
    ensures !Multipliable(EPSFLT, EPSFLT)
    ensures !IsFloor(EPSFLT, Product(EPSFLT, EPSFLT), Pow2(128))
    ensures Value(EPSFLT) * Pow2(128) > Product(EPSFLT, EPSFLT)
  {
    EpsFloor(EPSFLT, EPSFLT);
    LeastBelow();
    hide Pow2, Value, IsFloor;
    ScaleLess(Value(EPSFLT), Pow2(128), Value(EPSFLT));
  }

  lemma LeastBelow()
    ensures 0 < Value(EPSFLT) < Pow2(128)
  {
    SmallValues();
    Pow2At25();
    Pow2Mono(25, 128);
    hide Pow2, Value;
  }

  // ---------- scaling scores ----------

  const VINC: Flt := 104 * FLTMSB         // 1
  const LSCORE: Flt := 194 * FLTMSB       // 2^90
  const ILVINC: Flt := 14 * FLTMSB        // 2^-90
  const IFVINC: Flt := 0x680ccccc         // 1.05

  /** A number times 2^-90: the exponent gets smaller; where it would underflow the result is the least number. */
  function Rescored(s: Flt): Flt {
    if s == 0 then 0 else if s < 90 * FLTMSB then EPSFLT else s - 90 * FLTMSB
  }

  lemma RescoredExact(m: nat, k: nat)
    ensures (m * FLTMSB) * Pow2(k + 104) == (m * Pow2(k)) * Pow2(128)
  {
    Pow2At25();
    Pow2Add(24, k + 104);
    Pow2Add(k, 128);
    hide Pow2;
    Associate(m, FLTMSB, Pow2(k + 104));
    Associate(m, Pow2(k), Pow2(128));
  }

  lemma RescoredParts(s: Flt)
    requires s >= 90 * FLTMSB
    ensures var r := s - 90 * FLTMSB; Mantissa(r) == Mantissa(s) && Exponent(r) == Exponent(s) - 90
    ensures Mantissa(ILVINC) == FLTMSB && Exponent(ILVINC) == -114 && Exponent(s) >= -38
  {
  }

  lemma RescoredValue(s: Flt)
    requires s >= 90 * FLTMSB
    ensures Exponent(s) >= -38
    ensures var r, x := s - 90 * FLTMSB, Mantissa(s) * Pow2(Exponent(s) + 38);
      (if r > 0 then Value(r) == x else x == FLTMSB) && Product(s, ILVINC) == x * Pow2(128)
  {
    RescoredParts(s);
    ProductIs(s, ILVINC);
    RescoredExact(Mantissa(s), Exponent(s) + 38);
    if s == 90 * FLTMSB {
      assert Pow2(0) == 1;
    }
    hide Mantissa, Exponent, Product;
  }

  lemma RescoredFloor(s: Flt)
    requires s >= 90 * FLTMSB
    ensures IsFloor(s - 90 * FLTMSB, Product(s, ILVINC), Pow2(128)) && Multipliable(s, ILVINC)
  {
    hide Pow2, IsFloor, Mantissa, Exponent, Product, Value;
    RescoredParts(s);
    RescoredValue(s);
    RescoredBounds(s - 90 * FLTMSB, Mantissa(s) * Pow2(Exponent(s) + 38));
    FloorExactly(s - 90 * FLTMSB, Product(s, ILVINC), Pow2(128));
  }

  lemma RescoredBounds(r: Flt, x: nat)
    requires r < INFFLT && if r > 0 then Value(r) == x else x == FLTMSB
    ensures Value(r) * Pow2(128) <= x * Pow2(128) < Value(r + 1) * Pow2(128)
  {
    SmallValues();
    if r > 0 {
      ValueNext(r);
    }
    Pow2At25();
    hide Pow2, Value;
    Pow2Mono(24, 128);
    ScaleLess(x, Value(r + 1), Pow2(128));
  }

  lemma RescoredLow(s: Flt)
    requires 0 < s < 90 * FLTMSB
    ensures !Multipliable(s, ILVINC)
  {
  }

  lemma ZeroOnly(r: Flt, b: Flt)
    requires IsFloor(r, Product(0, b), Pow2(128))
    ensures r == 0
  {
    ZeroFloor(Value(b));
    Pow2Mono(0, 128);
    hide Pow2;
    assert Product(0, b) == 0;
    FloorMono(r, Product(0, b), 0, Value(b) * Value(0), Pow2(128));
  }

  /** The product with 2^-90. */
  method MulRescore(s: Flt) returns (r: Flt)
    ensures r == Rescored(s)
  {
    hide IsFloor, Value, Pow2;
    r := MulFlt(s, ILVINC);
    if s >= 90 * FLTMSB {
      RescoredFloor(s);
      FloorMono(r, Product(s, ILVINC), s - 90 * FLTMSB, Product(s, ILVINC), Pow2(128));
      FloorMono(s - 90 * FLTMSB, Product(s, ILVINC), r, Product(s, ILVINC), Pow2(128));
    } else if s > 0 {
      RescoredLow(s);
    } else {
      ZeroOnly(r, ILVINC);
    }
  }
}
