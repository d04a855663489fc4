/** The stored clauses, as far as they were not deleted, say the same as the original clauses. */
module Equivalence {
  import opened Cnf
  import opened Trails
  import opened Inference
  import opened Watches
  import opened States
  import opened Verdicts
  import opened Minimizing

  /** An assignment satisfies every clause in the store, the binary ones included. */
  ghost predicate StoreHolds(D: Store, m: Model) {
    && (forall c :: c in D.cls ==> Satisfies(m, D.cls[c]))
    && (forall a, b :: b in At(D.impls, a) ==> Satisfies(m, [a, b]))
  }

  lemma InvStored(s: State)
    requires Invariant(s, NOTHING)
    ensures ClausesEntailed(s.F, s.D.cls) && ImplsEntailed(s.F, s.D.impls) && FormulaOk(s.n, s.F)
  {
    hide TrailInv, WatchInv, QueueOk, ConflictOk, EmptyOk, FormulaOk, TallyOk;
    hide ClausesOk, ImplsOk, ListsOk, ParkedTrue, ClausesEntailed, ImplsEntailed;
  }

  lemma InvCovered(s: State, C: Clause)
    requires Invariant(s, NOTHING) && s.mtcls.None? && C in s.F
    ensures Covered(s.T, s.D, C) && TopUnits(s.T, s.D.cls)
  {
    hide Covered, TrailOk, ReasonsOk, TrailSound, TopUnits, LockedBy, WatchesOk, BinsOk;
    hide StoreInv, QueueOk, AssumptionsOk, ConflictOk, EmptyOk, FormulaOk, TallyOk;
    assert C in s.F - {};
  }

  lemma InvEmpty(s: State)
    requires Invariant(s, NOTHING) && s.mtcls.Some?
    ensures s.mtcls.value in s.D.cls && s.D.cls[s.mtcls.value] == []
  {
    hide TrailInv, StoreInv, WatchInv, QueueOk, AssumptionsOk, ConflictOk, FormulaOk, TallyOk;
  }

  lemma EmptyFails(s: State, m: Model)
    requires Invariant(s, NOTHING) && s.mtcls.Some?
    ensures !StoreHolds(s.D, m)
  {
    InvEmpty(s);
    hide Invariant;
    assert !Satisfies(m, []);
  }

  lemma SatisfiesSame(m: Model, c: Clause, d: Clause)
    requires SameLits(c, d) && Satisfies(m, c)
    ensures Satisfies(m, d)
  {
    var l :| l in c && Holds(m, l);
    assert l in d;
  }

  /** An original clause follows from the stored ones. */
  lemma CoveredHolds(T: Trail, D: Store, m: Model, C: Clause)
    requires StoreHolds(D, m) && Covered(T, D, C) && TopUnits(T, D.cls) && 0 !in C
    ensures Satisfies(m, C)
  {
    hide Satisfies;
    if Tautology(C) {
      TautologyHolds(m, C);
    } else if TopSatisfied(T.lev, C) {
      // behind a literal true at top level there is a unit clause
      var l :| l in C && l in T.lev && T.lev[l] == 0;
      var c := T.rsn[l].c;
      UnitHolds(m, l, C);
    } else if StoredLarge(D, C) {
      var c :| c in D.watched && c !in D.learned && c in D.cls && SameLits(D.cls[c], C);
      SatisfiesSame(m, D.cls[c], C);
    } else {
      var a, b :| b in At(D.impls, a) && SameLits([a, b], C);
      SatisfiesSame(m, [a, b], C);
    }
  }

  lemma UnitHolds(m: Model, l: Lit, C: Clause)
    requires l in C && Satisfies(m, [l])
    ensures Satisfies(m, C)
  {
  }

  /** The stored clauses have the models of the original clauses, whatever was learned, simplified or deleted. */
  lemma StoreMeans(s: State, m: Model)
    requires Invariant(s, NOTHING)
    ensures StoreHolds(s.D, m) <==> Models(m, s.F)
  {
    InvStored(s);
    if Models(m, s.F) {
      hide Invariant, Satisfies;
      forall c | c in s.D.cls
        ensures Satisfies(m, s.D.cls[c])
      {
        assert Entails(s.F, s.D.cls[c]);
      }
      forall a, b | b in At(s.D.impls, a)
        ensures Satisfies(m, [a, b])
      {
        assert Entails(s.F, [a, b]);
      }
    }
    if StoreHolds(s.D, m) {
      hide Satisfies, Covered, TopUnits, StoreHolds;
      if s.mtcls.Some? {
        EmptyFails(s, m);
      }
      forall C | C in s.F
        ensures Satisfies(m, C)
      {
        InvCovered(s, C);
        hide Invariant;
        assert 0 in C ==> Var(0) >= 1;
        CoveredHolds(s.T, s.D, m, C);
      }
    }
  }

  /** A clause follows from the stored clauses. */
  ghost predicate StoreEntails(D: Store, C: Clause) {
    forall m: Model :: StoreHolds(D, m) ==> Satisfies(m, C)
  }

  /** What the original clauses entail the store entails, and nothing more. */
  lemma StoreEntailsSame(s: State, C: Clause)
    requires Invariant(s, NOTHING)
    ensures StoreEntails(s.D, C) <==> Entails(s.F, C)
  {
    hide Invariant, StoreHolds, Satisfies, Models;
    forall m: Model
      ensures StoreHolds(s.D, m) <==> Models(m, s.F)
    {
      StoreMeans(s, m);
    }
  }

  /** The learned clause follows from the clauses stored when it is learned. */
  lemma LearnedStored(s: State, added: Clause)
    requires Invariant(s, NOTHING) && Learned(s, added)
    ensures StoreEntails(s.D, added)
  {
    hide Invariant, StoreEntails, Entails;
    StoreEntailsSame(s, added);
  }
}
