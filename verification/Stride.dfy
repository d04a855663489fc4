/** The random decision: a walk over all variables in steps of a length that is coprime to their number. */
module Stride {
  import opened Arithmetic

  // ---------- divisors ----------

  ghost predicate Divides(d: nat, n: nat) {
    exists k: nat :: n == d * k
  }

  ghost predicate CommonDivisor(d: nat, a: nat, b: nat) {
    Divides(d, a) && Divides(d, b)
  }

  /** g is the greatest common divisor of a and b: the common divisors are the divisors of g. */
  ghost predicate IsGcd(g: nat, a: nat, b: nat) {
    g > 0 && forall d: nat :: CommonDivisor(d, a, b) <==> Divides(d, g)
  }

  lemma DividesZero(d: nat)
    ensures Divides(d, 0)
  {
    assert 0 == d * 0;
  }

  lemma DividesOne(d: nat)
    requires Divides(d, 1)
    ensures d == 1
  {
    var k: nat :| 1 == d * k;
    TimesLow(d, k);
    TimesLow(k, d);
  }

  lemma DividesSelf(d: nat)
    ensures Divides(d, d)
  {
    assert d == d * 1;
  }

  lemma DividesCombination(d: nat, a: nat, b: nat, q: nat, r: nat)
    requires a == b * q + r
    requires Divides(d, b)
    ensures Divides(d, a) <==> Divides(d, r)
  {
    var k: nat :| b == d * k;
    Associate(d, k, q);
    if Divides(d, r) {
      var j: nat :| r == d * j;
      Distributes(d, k * q, j);
      assert a == d * (k * q + j);
    }
    if Divides(d, a) {
      var i: nat :| a == d * i;
      Distributes(d, i, k * q);
      assert r == d * (i - k * q);
      if i < k * q {
        TimesLow(d, k * q - i);
        assert d * (i - k * q) == -(d * (k * q - i));
        DividesZero(d);
      }
    }
  }

  /** One step of Euclid's algorithm keeps the common divisors. */
  lemma EuclidStep(a: nat, b: nat)
    requires b > 0
    ensures forall d: nat :: CommonDivisor(d, a, b) <==> CommonDivisor(d, b, a % b)
  {
    assert a == b * (a / b) + a % b;
    forall d: nat
      ensures CommonDivisor(d, a, b) <==> CommonDivisor(d, b, a % b)
    {
      if Divides(d, b) {
        DividesCombination(d, a, b, a / b, a % b);
      }
    }
  }

  method Gcd(a0: nat, b0: nat) returns (a: nat)
    requires a0 > 0 && b0 > 0
    ensures IsGcd(a, a0, b0)
  {
    hide Divides;
    var b: nat;
    a, b := a0, b0;
    if a < b {
      a, b := b, a;
    }
    while b > 0
      invariant a >= b && a > 0
      invariant forall d: nat :: CommonDivisor(d, a, b) <==> CommonDivisor(d, a0, b0)
      decreases b
    {
      EuclidStep(a, b);
      a, b := b, a % b;
    }
    forall d: nat
      ensures CommonDivisor(d, a0, b0) <==> Divides(d, a)
    {
      assert CommonDivisor(d, a, b) <==> CommonDivisor(d, a0, b0);
      DividesZero(d);
    }
  }

  ghost predicate Coprime(a: nat, b: nat) {
    forall d: nat :: CommonDivisor(d, a, b) ==> d == 1
  }

  lemma GcdOne(g: nat, a: nat, b: nat)
    requires IsGcd(g, a, b)
    ensures g == 1 <==> Coprime(a, b)
  {
    DividesSelf(g);
    assert CommonDivisor(g, a, b);
    if g == 1 {
      forall d: nat | CommonDivisor(d, a, b)
        ensures d == 1
      {
        assert Divides(d, g);
        DividesOne(d);
      }
    }
  }

  /** One is coprime to every number. */
  lemma OneCoprime(n: nat)
    ensures Coprime(1, n)
  {
    forall d: nat | CommonDivisor(d, 1, n)
      ensures d == 1
    {
      DividesOne(d);
    }
  }

  /** Some combination of a and b is a common divisor of them. */
  lemma {:induction false} Bezout(a: nat, b: nat) returns (g: nat, x: int, y: int)
    requires a > 0
    ensures g == a * x + b * y && CommonDivisor(g, a, b)
    decreases b
  {
    hide Divides;
    if b == 0 {
      g, x, y := a, 1, 0;
      DividesSelf(a);
      DividesZero(a);
    } else {
      var u, v;
      g, u, v := Bezout(b, a % b);
      EuclidStep(a, b);
      assert CommonDivisor(g, b, a % b);
      x, y := v, u - (a / b) * v;
      BezoutStep(a, b, a / b, a % b, u, v);
    }
  }

  lemma BezoutStep(a: int, b: int, q: int, r: int, u: int, v: int)
    requires a == b * q + r
    ensures b * u + r * v == a * v + b * (u - q * v)
  {
    calc {
      a * v + b * (u - q * v);
      (b * q + r) * v + b * u - b * (q * v);
      b * q * v + r * v + b * u - b * (q * v);
      { assert b * q * v == b * (q * v); }
      r * v + b * u;
    }
  }

  // ---------- the walk ----------

  /** The next index of the walk, wrapped back into 1..n. */
  function Next(idx: nat, delta: nat, n: nat): nat
    requires 1 <= idx <= n && delta <= n
  {
    if idx + delta > n then idx + delta - n else idx + delta
  }

  /** The index after k steps. */
  function Walk(start: nat, delta: nat, n: nat, k: nat): (r: nat)
    requires 1 <= start <= n && 1 <= delta <= n
    ensures 1 <= r <= n
  {
    if k == 0 then start else Next(Walk(start, delta, n, k - 1), delta, n)
  }

  lemma Wrapped(z: int, n: nat, m: int, r: nat)
    requires r < n && z == r + n * m
    ensures z % n == r
  {
    assert z == n * (z / n) + z % n;
    SameQuotient(n, z / n, z % n, m, r);
  }

  /** The walk moves around a circle. */
  lemma {:induction false} WalkAt(start: nat, delta: nat, n: nat, k: nat)
    requires 1 <= start <= n && 1 <= delta <= n
    ensures Walk(start, delta, n, k) == (start - 1 + k * delta) % n + 1
  {
    if k == 0 {
      assert 0 * delta == 0;
      Wrapped(start - 1, n, 0, start - 1);
    } else {
      WalkAt(start, delta, n, k - 1);
      StepAt(start - 1 + (k - 1) * delta, delta, n);
      assert k * delta == (k - 1) * delta + delta;
    }
  }

  lemma StepAt(z: int, delta: nat, n: nat)
    requires n > 0 && delta <= n
    ensures Next(z % n + 1, delta, n) == (z + delta) % n + 1
  {
    var q, r := z / n, z % n;
    assert z == n * q + r;
    if r + delta < n {
      Wrapped(z + delta, n, q, r + delta);
    } else {
      Distributes(n, q, 1);
      Wrapped(z + delta, n, q + 1, r + delta - n);
    }
  }

  /** With a coprime step length the first n indices of the walk are all indices. */
  lemma VisitsAll(start: nat, delta: nat, n: nat, v: nat) returns (k: nat)
    requires 1 <= start <= n && 1 <= delta <= n && 1 <= v <= n
    requires Coprime(delta, n)
    ensures k < n && Walk(start, delta, n, k) == v
  {
    hide Divides, CommonDivisor, Walk;
    var g, x, y := Bezout(delta, n);
    assert g == 1;
    var d: int := v - start;
    k := d * x % n;
    WalkAt(start, delta, n, k);
    Solves(start, delta, n, v, x, y, d * x / n, k);
  }

  lemma Solves(start: int, delta: int, n: nat, v: int, x: int, y: int, q: int, k: nat)
    requires 1 <= start <= n && 1 <= v <= n && k < n
    requires 1 == delta * x + n * y && (v - start) * x == n * q + k
    ensures (start - 1 + k * delta) % n == v - 1
  {
    var d := v - start;
    calc {
      k * delta;
      (d * x - n * q) * delta;
      { Distributes(delta, d * x, n * q); Associate(d, x, delta); Associate(n, q, delta); }
      d * (x * delta) - n * (q * delta);
      d * (1 - n * y) - n * (q * delta);
      { Distributes(d, 1, n * y); Associate(n, d, y); Associate(d, n, y); }
      d - n * (d * y) - n * (q * delta);
      { Distributes(n, d * y, q * delta); }
      d - n * (d * y + q * delta);
    }
    var m := d * y + q * delta;
    assert n * (-m) == -(n * m);
    Wrapped(start - 1 + k * delta, n, -m, v - 1);
  }

  ghost predicate Visited(start: nat, delta: nat, n: nat, v: nat)
    requires 1 <= start <= n && 1 <= delta <= n
  {
    exists k: nat :: k < n && Walk(start, delta, n, k) == v
  }

  /** And each of them comes up once. */
  lemma VisitsOnce(start: nat, delta: nat, n: nat)
    requires 1 <= start <= n && 1 <= delta <= n
    requires Coprime(delta, n)
    ensures forall v: nat :: 1 <= v <= n ==> Visited(start, delta, n, v)
    ensures forall j, k :: 0 <= j < k < n ==> Walk(start, delta, n, j) != Walk(start, delta, n, k)
  {
    hide Walk, Coprime;
    forall v: nat | 1 <= v <= n
      ensures Visited(start, delta, n, v)
    {
      var k := VisitsAll(start, delta, n, v);
    }
    var w := seq(n, i requires 0 <= i < n => Walk(start, delta, n, i));
    forall v: nat | 1 <= v <= n
      ensures v in w
    {
      assert Visited(start, delta, n, v);
      var k: nat :| 0 <= k < n && Walk(start, delta, n, k) == v;
      assert w[k] == v;
    }
    Surjective(w, n);
    forall j, k | 0 <= j < k < n
      ensures Walk(start, delta, n, j) != Walk(start, delta, n, k)
    {
      assert w[j] != w[k];
    }
  }

  /** A list of n numbers that contains all of 1..n contains none of them twice. */
  lemma Surjective(w: seq<nat>, n: nat)
    requires |w| == n && forall v: nat :: 1 <= v <= n ==> v in w
    ensures forall j, k :: 0 <= j < k < n ==> w[j] != w[k]
  {
    if j, k :| 0 <= j < k < n && w[j] == w[k] {
      var u := w[..k] + w[k + 1..];
      forall v: nat | 1 <= v <= n
        ensures v in u
      {
        assert v in w;
        var i :| 0 <= i < |w| && w[i] == v;
        assert u[if i < k then i else if i == k then j else i - 1] == v;
      }
      Covering(u, n);
      assert false;
    }
  }

  lemma {:induction false} Covering(u: seq<nat>, n: nat)
    requires forall v: nat :: 1 <= v <= n ==> v in u
    ensures |u| >= n
  {
    if n > 0 {
      assert n in u;
      var k :| 0 <= k < |u| && u[k] == n;
      var rest := u[..k] + u[k + 1..];
      forall v: nat | 1 <= v <= n - 1
        ensures v in rest
      {
        assert v in u;
        var i :| 0 <= i < |u| && u[i] == v;
        assert rest[if i < k then i else i - 1] == v;
      }
      Covering(rest, n - 1);
    }
  }

  // ---------- the decision ----------

  const RDECIDE := 1000

  /** The greatest step length up to delta that is coprime to n. */
  ghost predicate Longest(d: nat, delta: nat, n: nat) {
    && 1 <= d <= delta
    && Coprime(d, n)
    && forall e: nat :: d < e <= delta ==> !Coprime(e, n)
  }

  method StrideLength(drawn: nat, maxVar: nat) returns (delta: nat)
    requires 1 <= drawn <= maxVar
    ensures Longest(delta, drawn, maxVar)
  {
    hide Coprime, IsGcd;
    delta := drawn;
    var g := Gcd(delta, maxVar);
    GcdOne(g, delta, maxVar);
    while g != 1
      invariant 1 <= delta <= drawn
      invariant g == 1 <==> Coprime(delta, maxVar)
      invariant forall e: nat :: delta < e <= drawn ==> !Coprime(e, maxVar)
      decreases delta
    {
      OneCoprime(maxVar);
      delta := delta - 1;
      g := Gcd(delta, maxVar);
      GcdOne(g, delta, maxVar);
    }
  }

  /** idx is the first unassigned index of the walk, found within max_var steps. */
  ghost predicate FirstFree(undef: seq<bool>, start: nat, delta: nat, n: nat, idx: nat)
    requires |undef| == n + 1 && 1 <= start <= n && 1 <= delta <= n
  {
    exists k: nat :: k < n && Walk(start, delta, n, k) == idx && undef[idx] &&
      forall j: nat :: j < k ==> !undef[Walk(start, delta, n, j)]
  }

  /** The variable where the walk starts if that is unassigned, else the first unassigned one that the walk meets. */
  ghost predicate Drawn(undef: seq<bool>, maxVar: nat, start: nat, drawn: nat, idx: nat) {
    && |undef| == maxVar + 1 && 1 <= start <= maxVar && 1 <= drawn <= maxVar
    && if undef[start] then idx == start
       else exists delta :: Longest(delta, drawn, maxVar) && FirstFree(undef, start, delta, maxVar, idx)
  }

  /** Rarely picks a random unassigned variable; 0 means that the decision is left to the heap. The numbers drawn are
      parameters. */
  method Rdecide(undef: seq<bool>, maxVar: nat, draw: nat, start: nat, drawn: nat) returns (idx: nat)
    requires |undef| == maxVar + 1 && 1 <= draw <= RDECIDE && 1 <= start <= maxVar && 1 <= drawn <= maxVar
    requires exists v :: 1 <= v <= maxVar && undef[v]
    ensures draw != 2 ==> idx == 0
    ensures draw == 2 ==> 1 <= idx <= maxVar && undef[idx] && Drawn(undef, maxVar, start, drawn, idx)
  {
    if draw != 2 {
      return 0;
    }
    idx := start;
    if !undef[idx] {
      var delta := StrideLength(drawn, maxVar);
      idx := FindUnassigned(undef, maxVar, start, delta);
      assert Longest(delta, drawn, maxVar) && FirstFree(undef, start, delta, maxVar, idx);
    }
  }

  method FindUnassigned(undef: seq<bool>, maxVar: nat, start: nat, delta: nat) returns (idx: nat)
    requires |undef| == maxVar + 1 && 1 <= start <= maxVar && 1 <= delta <= maxVar
    requires Coprime(delta, maxVar) && !undef[start]
    requires exists v :: 1 <= v <= maxVar && undef[v]
    ensures FirstFree(undef, start, delta, maxVar, idx)
  {
    hide Coprime;
    ghost var v: nat :| 1 <= v <= maxVar && undef[v];
    ghost var bound := VisitsAll(start, delta, maxVar, v);
    idx := start;
    ghost var k: nat := 0;
    while !undef[idx]
      invariant k <= bound && idx == Walk(start, delta, maxVar, k)
      invariant forall j: nat :: j < k ==> !undef[Walk(start, delta, maxVar, j)]
      decreases bound - k
    {
      idx := idx + delta;
      if idx > maxVar {
        idx := idx - maxVar;
      }
      k := k + 1;
    }
  }
}
