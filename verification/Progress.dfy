/** Why a stretch of search is finite: a weight of the trail that every decision, propagation and conflict raises. */
module Progress {
  import opened Arithmetic
  import opened Cnf
  import opened Trails

  function Pow(b: nat, e: nat): (r: nat)
    ensures b > 0 ==> r > 0
  {
    if e == 0 then 1 else b * Pow(b, e - 1)
  }

  lemma {:induction false} PowMono(b: nat, e: nat, f: nat)
    requires b > 0 && e <= f
    ensures Pow(b, e) <= Pow(b, f)
    decreases f - e
  {
    if e < f {
      PowMono(b, e, f - 1);
      assert Pow(b, f) == b * Pow(b, f - 1);
      assert Pow(b, f) >= Pow(b, f - 1);
    }
  }

  /** A literal of a lower level weighs more than all literals of higher levels together. */
  function WeightOf(n: nat, level: map<Lit, nat>, l: Lit): nat {
    Pow(n + 1, if l in level && level[l] <= n then n - level[l] else 0)
  }

  function Weight(n: nat, level: map<Lit, nat>, lits: seq<Lit>): nat {
    if lits == [] then 0 else Weight(n, level, lits[..|lits| - 1]) + WeightOf(n, level, lits[|lits| - 1])
  }

  /** How many literals are true at top level. */
  function FixedCount(level: map<Lit, nat>, lits: seq<Lit>): nat {
    if lits == [] then 0
    else
      var l := lits[|lits| - 1];
      FixedCount(level, lits[..|lits| - 1]) + if l in level && level[l] == 0 then 1 else 0
  }

  lemma {:induction false} CountsSame(n: nat, level: map<Lit, nat>, level': map<Lit, nat>, lits: seq<Lit>)
    requires forall l :: l in lits ==> l in level && l in level' && level[l] == level'[l]
    ensures Weight(n, level, lits) == Weight(n, level', lits)
    ensures FixedCount(level, lits) == FixedCount(level', lits)
  {
    if lits != [] {
      CountsSame(n, level, level', lits[..|lits| - 1]);
      assert lits[|lits| - 1] in lits;
    }
  }

  lemma {:induction false} CountsSplit(n: nat, level: map<Lit, nat>, a: seq<Lit>, b: seq<Lit>)
    ensures Weight(n, level, a + b) == Weight(n, level, a) + Weight(n, level, b)
    ensures FixedCount(level, a + b) == FixedCount(level, a) + FixedCount(level, b)
  {
    if b == [] {
      assert a + b == a;
    } else {
      var c := b[..|b| - 1];
      CountsSplit(n, level, a, c);
      assert (a + b)[..|a + b| - 1] == a + c;
      assert (a + b)[|a + b| - 1] == b[|b| - 1];
    }
  }

  lemma MulStep(a: nat, p: nat)
    ensures (a + 1) * p == a * p + p
  {
  }

  lemma {:induction false} HighWeight(n: nat, level: map<Lit, nat>, lits: seq<Lit>, d: nat)
    requires d < n && forall l :: l in lits ==> l in level && d < level[l] <= n
    ensures Weight(n, level, lits) <= |lits| * Pow(n + 1, n - d - 1)
    ensures FixedCount(level, lits) == 0
  {
    if lits != [] {
      var l, rest := lits[|lits| - 1], lits[..|lits| - 1];
      assert l in lits;
      HighWeight(n, level, rest, d);
      PowMono(n + 1, n - level[l], n - d - 1);
      hide Pow;
      MulStep(|rest|, Pow(n + 1, n - d - 1));
    }
  }

  lemma {:induction false} WeightBound(n: nat, level: map<Lit, nat>, lits: seq<Lit>)
    ensures Weight(n, level, lits) <= |lits| * Pow(n + 1, n)
    ensures FixedCount(level, lits) <= |lits|
  {
    if lits != [] {
      var l, rest := lits[|lits| - 1], lits[..|lits| - 1];
      WeightBound(n, level, rest);
      PowMono(n + 1, if l in level && level[l] <= n then n - level[l] else 0, n);
      hide Pow;
      MulStep(|rest|, Pow(n + 1, n));
    }
  }

  /** The greatest weight a trail over n variables can have. */
  function TopWeight(n: nat): nat {
    n * Pow(n + 1, n)
  }

  lemma TrailWeight(n: nat, T: Trail)
    requires TrailOk(n, T)
    ensures Weight(n, T.lev, T.lits) <= TopWeight(n)
    ensures FixedCount(T.lev, T.lits) <= n
  {
    hide Layered, Decided, Indexed, Consistent;
    TrailFits(n, T);
    WeightBound(n, T.lev, T.lits);
    assert |T.lits| * Pow(n + 1, n) <= n * Pow(n + 1, n) by { MulMono(|T.lits|, n, Pow(n + 1, n)); }
  }

  lemma MulMono(a: nat, b: nat, c: nat)
    requires a <= b
    ensures a * c <= b * c
  {
  }

  /** Literals added behind raise the weight. */
  lemma GrownWeight(n: nat, T: Trail, U: Trail)
    requires T.lits <= U.lits
    requires forall l :: l in T.lits ==> l in T.lev && l in U.lev && T.lev[l] == U.lev[l]
    ensures Weight(n, T.lev, T.lits) <= Weight(n, U.lev, U.lits)
    ensures |U.lits| > |T.lits| ==> Weight(n, T.lev, T.lits) < Weight(n, U.lev, U.lits)
    ensures FixedCount(T.lev, T.lits) <= FixedCount(U.lev, U.lits)
  {
    var rest := U.lits[|T.lits|..];
    assert U.lits == T.lits + rest;
    CountsSplit(n, U.lev, T.lits, rest);
    CountsSame(n, T.lev, U.lev, T.lits);
    if rest != [] {
      assert Weight(n, U.lev, rest) >= WeightOf(n, U.lev, rest[|rest| - 1]) > 0;
    }
  }

  /** Going back to level d with one more literal on that level raises the weight too. */
  lemma JumpedWeight(n: nat, T: Trail, U: Trail, k: nat, l: Lit, d: nat)
    requires |T.lits| <= n && d < n && k <= |T.lits|
    requires forall i :: k <= i < |T.lits| ==> T.lits[i] in T.lev && d < T.lev[T.lits[i]] <= n
    requires forall i :: 0 <= i < k ==> T.lits[i] in T.lev && T.lits[i] in U.lev && U.lev[T.lits[i]] == T.lev[T.lits[i]]
    requires U.lits == T.lits[..k] + [l] && l in U.lev && U.lev[l] == d
    ensures Weight(n, T.lev, T.lits) < Weight(n, U.lev, U.lits)
    ensures FixedCount(T.lev, T.lits) <= FixedCount(U.lev, U.lits)
  {
    var low, high := T.lits[..k], T.lits[k..];
    assert T.lits == low + high;
    CountsSplit(n, T.lev, low, high);
    CountsSplit(n, U.lev, low, [l]);
    CountsSame(n, T.lev, U.lev, low);
    HighWeight(n, T.lev, high, d);
    var p := Pow(n + 1, n - d - 1);
    MulMono(|high|, n, p);
    assert Weight(n, U.lev, [l]) == Pow(n + 1, n - d) by {
      assert [l][..0] == [];
    }
    assert Pow(n + 1, n - d) == (n + 1) * p;
    assert (n + 1) * p == n * p + p;
  }

  /** Undoing everything above top level changes nothing below. */
  lemma RestartedCount(T: Trail, U: Trail, k: nat)
    requires k <= |T.lits| && U.lits == T.lits[..k]
    requires forall i :: k <= i < |T.lits| ==> T.lits[i] in T.lev && T.lev[T.lits[i]] > 0
    requires forall i :: 0 <= i < k ==> T.lits[i] in T.lev && T.lits[i] in U.lev && U.lev[T.lits[i]] == T.lev[T.lits[i]]
    ensures FixedCount(U.lev, U.lits) == FixedCount(T.lev, T.lits)
  {
    var low, high := T.lits[..k], T.lits[k..];
    assert T.lits == low + high;
    CountsSplit(0, T.lev, low, high);
    CountsSame(0, T.lev, U.lev, low);
    NoneFixed(T.lev, high);
  }

  lemma {:induction false} NoneFixed(level: map<Lit, nat>, lits: seq<Lit>)
    requires forall l :: l in lits ==> l in level && level[l] > 0
    ensures FixedCount(level, lits) == 0
  {
    if lits != [] {
      assert lits[|lits| - 1] in lits;
      NoneFixed(level, lits[..|lits| - 1]);
    }
  }

  // ---------- the Luby sequence ----------

  /** The least k with i < 2^k. */
  function Bits(i: nat): (k: nat)
    ensures i < Pow2(k) && (k > 0 ==> Pow2(k - 1) <= i)
  {
    if i == 0 then 0 else 1 + Bits(i / 2)
  }

  function LubyOf(i: nat): nat
    requires i >= 1
  {
    var k := Bits(i);
    if i == Pow2(k) - 1 then Pow2(k - 1) else LubyOf(i - Pow2(k - 1) + 1)
  }

  lemma {:induction false} BitsUnique(i: nat, k: nat)
    requires k > 0 && Pow2(k - 1) <= i < Pow2(k)
    ensures Bits(i) == k
  {
    var b := Bits(i);
    if b < k {
      Pow2Mono(b, k - 1);
    } else if b > k {
      Pow2Mono(k, b - 1);
    }
  }

  /** The sequence reaches every power of two. */
  lemma LubyPeak(k: nat)
    requires k >= 1
    ensures Pow2(k) - 1 >= 1 && LubyOf(Pow2(k) - 1) == Pow2(k - 1)
  {
    BitsUnique(Pow2(k) - 1, k);
  }

  /** The number of conflicts until the next restart. */
  method Luby(i: nat) returns (r: nat)
    requires i >= 1
    ensures r == LubyOf(i)
    decreases i
  {
    var k := 1;
    while Pow2(k) - 1 <= i
      invariant k >= 1 && Pow2(k - 1) <= i
      decreases i - k + 1
    {
      if i == Pow2(k) - 1 {
        BitsUnique(i, k);
        return Pow2(k - 1);
      }
      k := k + 1;
    }
    BitsUnique(i, k);
    k := 1;
    while !(Pow2(k - 1) <= i < Pow2(k) - 1)
      invariant 1 <= k <= Bits(i) && Pow2(k - 1) <= i
      decreases Bits(i) - k
    {
      Pow2Mono(k, Bits(i) - 1);
      k := k + 1;
    }
    BitsUnique(i, k);
    r := Luby(i - Pow2(k - 1) + 1);
  }

  // ---------- the measure of the search ----------

  /** What the search raises, most important first; room counts the restarts left until a long enough stretch. */
  datatype Measure = Measure(isimplify: int, fsimplify: int, room: int, weight: int, alstail: int)

  ghost predicate Closer(a: Measure, b: Measure) {
    || b.isimplify > a.isimplify
    || (b.isimplify == a.isimplify && (
      || b.fsimplify > a.fsimplify
      || (b.fsimplify == a.fsimplify && (
        || b.room < a.room
        || (b.room == a.room && (
          || b.weight > a.weight
          || (b.weight == a.weight && b.alstail > a.alstail)))))))
  }

  /** The restart interval at the peak K is longer than any stretch of search without restart. */
  ghost predicate IsPeak(K: nat, top: nat) {
    K >= 1 && 100 * LubyOf(K) > top
  }

  /** No restart happens at the peak: the conflicts until then exceed what the weight can still grow. */
  ghost predicate Spaced(K: nat, lubycnt: nat, lrestart: nat, conflicts: nat, top: nat, weight: nat) {
    lubycnt <= K && (lubycnt == K ==> lrestart - conflicts > top - weight)
  }

  lemma NewPeak(m: nat, top: nat) returns (K: nat)
    ensures K > m && IsPeak(K, top)
  {
    hide LubyOf, Pow2;
    var k := m + top + 1;
    K := Pow2(k) - 1;
    LubyPeak(k);
    PowBound(k);
  }

  lemma PowBound(k: nat)
    requires k >= 1
    ensures Pow2(k) == 2 * Pow2(k - 1) && Pow2(k - 1) > k - 1
  {
  }

  lemma SpacedLonger(K: nat, lubycnt: nat, lrestart: nat, conflicts: nat, top: nat, weight: nat, conflicts': nat,
                     weight': nat)
    requires Spaced(K, lubycnt, lrestart, conflicts, top, weight)
    requires weight' - weight >= conflicts' - conflicts
    ensures Spaced(K, lubycnt, lrestart, conflicts', top, weight')
  {
  }

  /** A restart is due, so the peak is not reached yet; and the next interval is long enough if it is the peak's. */
  lemma SpacedRestart(K: nat, lubycnt: nat, lrestart: nat, conflicts: nat, top: nat, weight: nat, weight': nat)
    requires IsPeak(K, top) && Spaced(K, lubycnt, lrestart, conflicts, top, weight) && conflicts >= lrestart
    requires weight <= top
    ensures lubycnt < K && Spaced(K, lubycnt + 1, conflicts + 100 * LubyOf(lubycnt + 1), conflicts, top, weight')
  {
  }

  lemma CloserOn(a: Measure, b: Measure, c: Measure)
    requires Closer(a, b) || a == b
    ensures Closer(b, c) ==> Closer(a, c)
    ensures b == c ==> Closer(a, c) || a == c
  {
  }
}
