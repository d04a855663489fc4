/** The enumerating solver and the clause learning solver give the same answer. */
module Agreement {
  import opened Cnf
  import opened Verdicts
  import opened Solver
  import opened Oracles
  import Problems
  import NativeSolver

  /** Adds a clause. */
  method AddLits(ps: PicoSAT, lits: Clause)
    requires Usable(ps) && 0 !in lits
    modifies ps, ps.heap
    ensures Usable(ps) && ps.state.READY? && ps.F == old(ps.F) + {lits}
    ensures ps.als == if old(ps.state).READY? then old(ps.als) else []
  {
    hide PicoSAT.Valid, PicoSAT.Unlimited, PicoSAT.Tracked, PicoSAT.Recorded;
    for i := 0 to |lits|
      invariant ps.Valid() && ps.Unlimited() && ps.added == lits[..i] && ps.F == old(ps.F)
      invariant ps.als == if old(ps.state).READY? then old(ps.als) else if i == 0 then old(ps.als) else []
      invariant if i == 0 then ps.state == old(ps.state) else ps.state.READY?
    {
      assert lits[..i + 1] == lits[..i] + [lits[i]];
      ps.Add(lits[i]);
    }
    assert lits[..|lits|] == lits;
    ps.Add(0);
  }

  /** Adds all clauses of a problem. */
  method AddClauses(ps: PicoSAT, p: Problems.SATProblem)
    requires Usable(ps) && ps.state.READY? && ps.F == {} && ps.als == [] && Problems.InRange(p)
    modifies ps, ps.heap
    ensures Usable(ps) && ps.state.READY? && ps.F == Problems.Formula(p) && ps.als == []
  {
    hide Usable;
    for i := 0 to |p.clauses|
      invariant Usable(ps) && ps.state.READY? && ps.als == []
      invariant ps.F == set C | C in p.clauses[..i]
    {
      assert p.clauses[i] in p.clauses;
      assert p.clauses[..i + 1] == p.clauses[..i] + [p.clauses[i]];
      assert 0 in p.clauses[i] ==> Var(0) >= 1;
      AddLits(ps, p.clauses[i]);
    }
    assert p.clauses[..|p.clauses|] == p.clauses;
  }

  /** The answers mean the same. */
  lemma SameMeaning(p: Problems.SATProblem, native: Problems.SolveResult, model: Problems.SATModel, ps: PicoSAT,
                    r: Verdict)
    requires Problems.InRange(p) && ps.F == Problems.Formula(p) && ps.als == [] && ps.Meaning(r) && !r.Unknown?
    requires native.Sat? ==> Problems.IsModel(p, model)
    requires native.Unsat? ==> forall m :: Problems.Within(m, p.variableCount) ==> !Problems.MeetsAll(m, p.clauses)
    ensures r.Satisfiable? <==> exists m :: Models(m, Problems.Formula(p))
    ensures native.Sat? ==> r.Satisfiable?
    ensures native.Unsat? ==> r.Unsatisfiable?
  {
    hide Models, Problems.MeetsAll, Problems.InRange, Problems.Within;
    Problems.InRangeModels(p);
    assert Assumed([]) == {};
    if r.Unsatisfiable? {
      forall m: Model
        ensures !Models(m, ps.F)
      {
        assert Agrees(m, {});
      }
    }
    if native.Sat? {
      assert Problems.MeetsAll(Problems.TrueVars(model.assignments), p.clauses);
    }
  }

  /** Runs both solvers on a problem. */
  method SolveBoth(p: Problems.SATProblem) returns (native: Problems.SolveResult, fast: Verdict)
    requires Problems.InRange(p)
    ensures fast.Satisfiable? <==> exists m :: Models(m, Problems.Formula(p))
    ensures fast.Unsatisfiable? <==> !exists m :: Models(m, Problems.Formula(p))
    ensures p.variableCount <= 63 ==> (native.Sat? <==> fast.Satisfiable?) && (native.Unsat? <==> fast.Unsatisfiable?)
  {
    hide PicoSAT.Valid, PicoSAT.Unlimited, PicoSAT.Tracked, PicoSAT.Recorded, PicoSAT.Meaning;
    hide Models, Problems.IsModel, Problems.MeetsAll, Problems.Within;
    var adapter := new NativeSolver.NativeSolverAdapter();
    adapter.Load(p);
    native := adapter.Solve();
    var ps := new PicoSAT();
    AddClauses(ps, p);
    var sat := SolveUnder(ps, []);
    fast := if sat then Satisfiable else Unsatisfiable;
    SameMeaning(p, native, adapter.lastModel, ps, fast);
  }
}
