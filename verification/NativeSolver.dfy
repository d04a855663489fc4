/** Sattyre's own solver: it tries all assignments, each read from the bits of a 64-bit mask. */
module NativeSolver {
  import opened Arithmetic
  import opened Cnf
  import opened Problems

  // ---------- masks ----------

  predicate Bit(mask: nat, k: nat) {
    mask / Pow2(k) % 2 == 1
  }

  predicate VarBit(mask: nat, v: int) {
    v >= 1 && Bit(mask, v - 1)
  }

  /** The variables that are true under a mask. */
  function MaskModel(mask: nat): Model {
    set v: int | 1 <= v <= 64 && VarBit(mask, v)
  }

  /** The mask under which the variables of m up to n are true. */
  function MaskOf(m: Model, n: nat): (mask: nat)
    ensures mask < Pow2(n)
  {
    if n == 0 then 0 else MaskOf(m, n - 1) + if n in m then Pow2(n - 1) else 0
  }

  lemma Quotient(x: nat, a: nat, b: nat, q: nat)
    requires b > 0 && x == a + q * b
    ensures x / b == a / b + q
  {
    assert x == (a / b + q) * b + a % b by {
      Distribute(a / b, q, b);
      assert a == a / b * b + a % b;
    }
    DivUnique(x, b, a / b + q, a % b);
  }

  lemma Parity(a: nat, h: nat)
    ensures (a + 2 * h) % 2 == a % 2
  {
  }

  lemma EvenShift(x: nat, y: nat, p: nat, h: nat)
    requires p > 0 && y == x + 2 * h * p
    ensures y / p % 2 == x / p % 2
  {
    Quotient(y, x, p, 2 * h);
    Parity(x / p, h);
  }

  /** Higher bits do not matter. */
  lemma BitBelow(x: nat, n: nat, k: nat)
    requires k < n
    ensures Bit(x + Pow2(n), k) == Bit(x, k)
  {
    Pow2Add(n - k, k);
    var h := Pow2(n - k - 1);
    assert Pow2(n - k) == 2 * h;
    EvenShift(x, x + Pow2(n), Pow2(k), h);
  }

  lemma BitTop(x: nat, n: nat)
    requires x < Pow2(n)
    ensures Bit(x + Pow2(n), n) && !Bit(x, n)
  {
    DivUnique(x + Pow2(n), Pow2(n), 1, x);
    DivUnique(x, Pow2(n), 0, x);
  }

  lemma BitAbove(x: nat, n: nat, k: nat)
    requires x < Pow2(n) && n <= k
    ensures !Bit(x, k)
  {
    Pow2Mono(n, k);
    DivUnique(x, Pow2(k), 0, x);
  }

  lemma MaskStep(m: Model, n: nat)
    requires n > 0
    ensures MaskOf(m, n) == MaskOf(m, n - 1) + if n in m then Pow2(n - 1) else 0
  {
  }

  /** The bits of a mask are the variables it was made from. */
  lemma {:induction false} MaskBits(m: Model, n: nat, k: nat)
    ensures Bit(MaskOf(m, n), k) <==> k < n && k + 1 in m
  {
    hide Bit, Pow2, MaskOf;
    if k >= n {
      BitAbove(MaskOf(m, n), n, k);
    } else {
      var x := MaskOf(m, n - 1);
      MaskStep(m, n);
      if k == n - 1 {
        BitTop(x, n - 1);
      } else {
        MaskBits(m, n - 1, k);
        BitBelow(x, n - 1, k);
      }
    }
  }

  /** Every assignment of up to 64 variables is the meaning of a mask. */
  lemma MaskRoundTrip(m: Model, n: nat)
    requires n <= 64 && Within(m, n)
    ensures MaskOf(m, n) < Pow2(n) && MaskModel(MaskOf(m, n)) == m
  {
    forall v: int
      ensures v in MaskModel(MaskOf(m, n)) <==> v in m
    {
      if 1 <= v <= 64 {
        MaskBits(m, n, v - 1);
      }
    }
  }

  lemma MaskWithin(mask: nat, n: nat)
    requires n <= 64 && mask < Pow2(n)
    ensures Within(MaskModel(mask), n)
  {
    forall v | v in MaskModel(mask)
      ensures 1 <= v <= n
    {
      if v > n {
        BitAbove(mask, n, v - 1);
        assert false;
      }
    }
  }

  // ---------- the solver ----------

  /** The shifts of the mask are defined. */
  ghost predicate Shiftable(C: Clause) {
    forall l :: l in C ==> Var(l) <= 64
  }

  method ClauseSatisfied(C: Clause, mask: nat) returns (r: bool)
    requires Shiftable(C)
    ensures r <==> Meets(MaskModel(mask), C)
  {
    hide Bit;
    for i := 0 to |C|
      invariant forall j :: 0 <= j < i ==> C[j] == 0 || !Holds(MaskModel(mask), C[j])
    {
      var literal := C[i];
      assert literal in C;
      var variable := Var(literal);
      if variable == 0 {
        continue;
      }
      var value := Bit(mask, variable - 1);
      if (literal > 0 && value) || (literal < 0 && !value) {
        return true;
      }
    }
    return false;
  }

  method FormulaSatisfied(p: SATProblem, mask: nat) returns (r: bool)
    requires forall C :: C in p.clauses ==> Shiftable(C)
    ensures r <==> MeetsAll(MaskModel(mask), p.clauses)
  {
    hide MaskModel, Shiftable, Meets;
    for i := 0 to |p.clauses|
      invariant forall j :: 0 <= j < i ==> Meets(MaskModel(mask), p.clauses[j])
    {
      var ok := ClauseSatisfied(p.clauses[i], mask);
      if !ok {
        return false;
      }
    }
    return true;
  }

  method ModelOfMask(mask: nat, n: nat) returns (model: SATModel)
    requires n <= 63 && mask < Pow2(n)
    ensures |model.assignments| == n + 1 && model.assignments[0] == 0
    ensures forall v :: 1 <= v <= n ==> model.assignments[v] == 1 || model.assignments[v] == -1
    ensures TrueVars(model.assignments) == MaskModel(mask)
  {
    hide Bit;
    var a := seq(n + 1, i => 0);
    for variable := 1 to n + 1
      invariant |a| == n + 1 && a[0] == 0
      invariant forall v :: 1 <= v < variable ==> a[v] == if VarBit(mask, v) then 1 else -1
    {
      a := a[variable := if Bit(mask, variable - 1) then 1 else -1];
    }
    MaskWithin(mask, n);
    model := SATModel(a);
  }

  class NativeSolverAdapter {
    var problem: SATProblem
    var lastModel: SATModel
    var lastResult: SolveResult

    constructor ()
      ensures problem == SATProblem([], 0) && lastModel == SATModel([]) && lastResult == Unknown
    {
      problem, lastModel, lastResult := SATProblem([], 0), SATModel([]), Unknown;
    }

    method Load(p: SATProblem)
      modifies `problem
      ensures problem == p
    {
      problem := p;
    }

    /** Answers exactly when there are at most 63 variables. The model found is the one with the least mask. */
    method Solve() returns (r: SolveResult)
      requires problem.variableCount <= 63 ==> forall C :: C in problem.clauses ==> Shiftable(C)
      modifies `lastModel, `lastResult
      ensures lastResult == r
      ensures problem.variableCount > 63 <==> r.Unknown?
      ensures r.Sat? ==> IsModel(problem, lastModel)
      ensures r.Sat? ==> forall k :: 0 <= k < MaskOf(TrueVars(lastModel.assignments), problem.variableCount) ==>
        !MeetsAll(MaskModel(k), problem.clauses)
      ensures r.Unsat? ==> forall m :: Within(m, problem.variableCount) ==> !MeetsAll(m, problem.clauses)
      ensures !r.Sat? ==> lastModel == SATModel([])
    {
      hide Shiftable, MeetsAll, Within, TrueVars, MaskModel;
      var n := problem.variableCount;
      if n > 63 {
        lastModel, lastResult := SATModel([]), Unknown;
        return lastResult;
      }
      var limit := Pow2(n);
      var mask := 0;
      while mask < limit
        invariant mask <= limit
        invariant forall k :: 0 <= k < mask ==> !MeetsAll(MaskModel(k), problem.clauses)
      {
        var ok := FormulaSatisfied(problem, mask);
        if ok {
          lastModel := ModelOfMask(mask, n);
          lastResult := Sat;
          MaskWithin(mask, n);
          MaskRoundTrip(MaskModel(mask), n);
          Least(problem.clauses, MaskModel(mask), n, mask);
          return lastResult;
        }
        mask := mask + 1;
      }
      NoMask(problem.clauses, n);
      lastModel, lastResult := SATModel([]), Unsat;
      return lastResult;
    }

    method Model() returns (model: SATModel)
      ensures model == lastModel
    {
      model := lastModel;
    }
  }

  /** Different masks below 2^n mean different assignments, so the mask of a model found first is least. */
  lemma Least(cs: seq<Clause>, m: Model, n: nat, mask: nat)
    requires n <= 64 && mask < Pow2(n) && m == MaskModel(mask) && MeetsAll(m, cs)
    requires MaskModel(MaskOf(m, n)) == m && MaskOf(m, n) < Pow2(n)
    ensures MaskOf(m, n) == mask
  {
    hide MaskModel, MeetsAll;
    MaskUnique(MaskOf(m, n), mask, n);
  }

  lemma MaskUnique(a: nat, b: nat, n: nat)
    requires n <= 64 && a < Pow2(n) && b < Pow2(n) && MaskModel(a) == MaskModel(b)
    ensures a == b
  {
    hide Bit, Pow2;
    forall k | 0 <= k < n
      ensures Bit(a, k) == Bit(b, k)
    {
      var v := k + 1;
      assert v in MaskModel(a) <==> v in MaskModel(b);
      assert VarBit(a, v) == VarBit(b, v);
    }
    BitsDetermine(a, b, n);
  }

  lemma {:induction false} BitsDetermine(a: nat, b: nat, n: nat)
    requires a < Pow2(n) && b < Pow2(n) && forall k :: 0 <= k < n ==> Bit(a, k) == Bit(b, k)
    ensures a == b
  {
    if n > 0 {
      assert Bit(a, 0) == Bit(b, 0);
      forall k | 0 <= k < n - 1
        ensures Bit(a / 2, k) == Bit(b / 2, k)
      {
        BitHalf(a, k);
        BitHalf(b, k);
        assert Bit(a, k + 1) == Bit(b, k + 1);
      }
      BitsDetermine(a / 2, b / 2, n - 1);
    }
  }

  lemma BitHalf(a: nat, k: nat)
    ensures Bit(a / 2, k) == Bit(a, k + 1)
  {
    var p, h := Pow2(k), a / 2;
    assert h == h / p * p + h % p;
    assert a == h / p * (2 * p) + (2 * (h % p) + a % 2) by {
      assert 2 * (h / p * p) == h / p * (2 * p);
    }
    DivUnique(a, 2 * p, h / p, 2 * (h % p) + a % 2);
  }

  /** If no mask meets the clauses, no assignment of the declared variables does. */
  lemma NoMask(cs: seq<Clause>, n: nat)
    requires n <= 64 && forall k :: 0 <= k < Pow2(n) ==> !MeetsAll(MaskModel(k), cs)
    ensures forall m :: Within(m, n) ==> !MeetsAll(m, cs)
  {
    forall m | Within(m, n)
      ensures !MeetsAll(m, cs)
    {
      MaskRoundTrip(m, n);
      assert !MeetsAll(MaskModel(MaskOf(m, n)), cs);
    }
  }
}
