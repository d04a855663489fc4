/** Sattyre's own problems, models and answers. */
module Problems {
  import opened Cnf

  datatype SATProblem = SATProblem(clauses: seq<Clause>, variableCount: nat)

  /** The value 1 or -1 of every variable, at its index; index 0 is unused. */
  datatype SATModel = SATModel(assignments: seq<int>)

  datatype SolveResult = Sat | Unsat | Unknown

  /** All literals are nonzero and belong to declared variables. */
  ghost predicate InRange(p: SATProblem) {
    forall C, l :: C in p.clauses && l in C ==> 1 <= Var(l) <= p.variableCount
  }

  ghost function Formula(p: SATProblem): set<Clause> {
    set C | C in p.clauses
  }

  /** The variables a model makes true. */
  function TrueVars(a: seq<int>): Model {
    set v: int | 1 <= v < |a| && a[v] == 1
  }

  ghost predicate IsModel(p: SATProblem, model: SATModel) {
    && |model.assignments| == p.variableCount + 1 && model.assignments[0] == 0
    && (forall v :: 1 <= v <= p.variableCount ==> model.assignments[v] == 1 || model.assignments[v] == -1)
    && MeetsAll(TrueVars(model.assignments), p.clauses)
  }

  /** Some literal of the clause is true; a zero counts for nothing. */
  ghost predicate Meets(m: Model, C: Clause) {
    exists l :: l in C && l != 0 && Holds(m, l)
  }

  ghost predicate MeetsAll(m: Model, cs: seq<Clause>) {
    forall C :: C in cs ==> Meets(m, C)
  }

  ghost predicate Within(m: Model, n: nat) {
    forall v :: v in m ==> 1 <= v <= n
  }

  function Restricted(m: Model, n: nat): Model {
    set v | v in m && 1 <= v <= n
  }

  /** A problem in range has a model iff it has one that mentions declared variables only. */
  lemma InRangeModels(p: SATProblem)
    requires InRange(p)
    ensures forall m :: MeetsAll(m, p.clauses) <==> Models(m, Formula(p))
    ensures (exists m :: Models(m, Formula(p))) <==> exists m :: Within(m, p.variableCount) && MeetsAll(m, p.clauses)
  {
    forall m: Model, C | C in p.clauses
      ensures Meets(m, C) <==> Satisfies(m, C)
      ensures Satisfies(m, C) ==> Meets(Restricted(m, p.variableCount), C)
    {
      if Satisfies(m, C) {
        var l :| l in C && Holds(m, l);
        assert 1 <= Var(l) <= p.variableCount;
        assert Holds(Restricted(m, p.variableCount), l);
      }
    }
    hide Meets, Satisfies;
    if m: Model :| Models(m, Formula(p)) {
      var k := Restricted(m, p.variableCount);
      forall C | C in p.clauses
        ensures Meets(k, C)
      {
        assert C in Formula(p);
      }
      assert Within(k, p.variableCount) && MeetsAll(k, p.clauses);
    }
  }
}
