/** Sets of assumptions: maximal satisfiable, minimal correcting and minimal unsatisfiable subsets, and their duality.
    */
module Subsets {
  import opened Cnf

  /** M is satisfiable together with F, and no other assumption of A can be added to it. */
  ghost predicate IsMss(F: set<Clause>, A: set<Lit>, M: set<Lit>) {
    M <= A && !Refuted(F, M) && forall a :: a in A && a !in M ==> Refuted(F, M + {a})
  }

  /** Dropping C from A leaves a maximal satisfiable subset. */
  ghost predicate IsMcs(F: set<Clause>, A: set<Lit>, C: set<Lit>) {
    C <= A && IsMss(F, A, A - C)
  }

  /** U contradicts F, and becomes satisfiable when any member is dropped. */
  ghost predicate IsMus(F: set<Clause>, A: set<Lit>, U: set<Lit>) {
    U <= A && Refuted(F, U) && forall a :: a in U ==> !Refuted(F, U - {a})
  }

  /** Every satisfiable subset can be extended to a maximal one. */
  lemma {:induction false} GrowMss(F: set<Clause>, A: set<Lit>, S: set<Lit>) returns (M: set<Lit>)
    requires S <= A && !Refuted(F, S)
    ensures IsMss(F, A, M) && S <= M
    decreases |A - S|
  {
    hide Refuted;
    if a :| a in A && a !in S && !Refuted(F, S + {a}) {
      assert A - (S + {a}) == A - S - {a};
      M := GrowMss(F, A, S + {a});
    } else {
      M := S;
    }
  }

  /** Every unsatisfiable subset contains a minimal one. */
  lemma {:induction false} ShrinkMus(F: set<Clause>, A: set<Lit>, S: set<Lit>) returns (U: set<Lit>)
    requires S <= A && Refuted(F, S)
    ensures IsMus(F, A, U) && U <= S
    decreases |S|
  {
    hide Refuted;
    if a :| a in S && Refuted(F, S - {a}) {
      U := ShrinkMus(F, A, S - {a});
    } else {
      U := S;
    }
  }

  ghost predicate InSomeMcs(F: set<Clause>, A: set<Lit>, a: Lit) {
    exists C :: IsMcs(F, A, C) && a in C
  }

  ghost predicate InSomeMus(F: set<Clause>, A: set<Lit>, a: Lit) {
    exists U :: IsMus(F, A, U) && a in U
  }

  /** An assumption is in some minimal correcting subset exactly if it is in some minimal unsatisfiable subset. */
  lemma Duality(F: set<Clause>, A: set<Lit>, a: Lit)
    ensures InSomeMcs(F, A, a) <==> InSomeMus(F, A, a)
  {
    hide Refuted;
    if InSomeMcs(F, A, a) {
      var C :| IsMcs(F, A, C) && a in C;
      var M := A - C;
      var U := ShrinkMus(F, A, M + {a});
      if a !in U {
        RefutedMore(F, U, M);
      }
      assert IsMus(F, A, U) && a in U;
    }
    if InSomeMus(F, A, a) {
      var U :| IsMus(F, A, U) && a in U;
      var M := GrowMss(F, A, U - {a});
      if a in M {
        RefutedMore(F, U, M);
      }
      assert A - (A - M) == M;
      assert IsMcs(F, A, A - M) && a in A - M;
    }
  }

  // ---------- enumeration with blocking clauses ----------

  /** m makes some assumption outside M true. */
  ghost predicate Escapes(m: Model, A: set<Lit>, M: set<Lit>) {
    exists a :: a in A && a !in M && Holds(m, a)
  }

  /** F is F0 with every maximal satisfiable subset of P blocked. */
  ghost predicate Blocking(F0: set<Clause>, A: set<Lit>, P: set<set<Lit>>, F: set<Clause>) {
    && (forall M :: M in P ==> IsMss(F0, A, M))
    && (forall m: Model :: Models(m, F) <==> Models(m, F0) && forall M :: M in P ==> Escapes(m, A, M))
    && (P != {} ==> exists C :: C in F && forall l :: l in C ==> l in A)
  }

  lemma BlockingNone(F: set<Clause>, A: set<Lit>)
    ensures Blocking(F, A, {}, F)
  {
  }

  /** In a model of F and M, exactly the assumptions of M are true. */
  lemma OnlyInside(F: set<Clause>, A: set<Lit>, M: set<Lit>, m: Model, a: Lit)
    requires IsMss(F, A, M) && Models(m, F) && Agrees(m, M) && a in A && Holds(m, a)
    ensures a in M
  {
    hide Models;
    assert Agrees(m, M + {a});
  }

  ghost predicate Outside(M: set<Lit>, Q: set<Lit>) {
    exists b :: b in M && b !in Q
  }

  lemma EscapesAll(F0: set<Clause>, A: set<Lit>, P: set<set<Lit>>, F: set<Clause>, M: set<Lit>, m: Model)
    requires Blocking(F0, A, P, F) && M <= A && (forall Q :: Q in P ==> Outside(M, Q))
    requires Models(m, F0) && Agrees(m, M)
    ensures Models(m, F)
  {
    hide Models, IsMss;
    forall Q | Q in P
      ensures Escapes(m, A, Q)
    {
      assert Outside(M, Q);
      var b :| b in M && b !in Q;
      assert Holds(m, b);
    }
  }

  /** A subset that is maximal for the blocked formula is so for the formula, and was not found before. */
  lemma BlockedMss(F0: set<Clause>, A: set<Lit>, P: set<set<Lit>>, F: set<Clause>, M: set<Lit>)
    requires Blocking(F0, A, P, F) && IsMss(F, A, M)
    ensures IsMss(F0, A, M) && M !in P
  {
    var m: Model :| Models(m, F) && Agrees(m, M);
    hide Models;
    forall Q | Q in P
      ensures Outside(M, Q)
    {
      assert Escapes(m, A, Q);
      var b :| b in A && b !in Q && Holds(m, b);
      OnlyInside(F, A, M, m, b);
    }
    forall a, m': Model | a in A && a !in M && Models(m', F0)
      ensures !Agrees(m', M + {a})
    {
      if Agrees(m', M + {a}) {
        EscapesAll(F0, A, P, F, M, m');
        assert false;
      }
    }
  }

  /** If the blocked formula has no model, all maximal satisfiable subsets were found. */
  lemma BlockedAll(F0: set<Clause>, A: set<Lit>, P: set<set<Lit>>, F: set<Clause>, M: set<Lit>)
    requires Blocking(F0, A, P, F) && Refuted(F, {}) && IsMss(F0, A, M)
    ensures M in P
  {
    var m: Model :| Models(m, F0) && Agrees(m, M);
    hide Models;
    if M !in P {
      forall Q | Q in P
        ensures Outside(M, Q)
      {
        NotInside(F0, A, M, Q);
      }
      EscapesAll(F0, A, P, F, M, m);
      assert false;
    }
  }

  /** Different maximal satisfiable subsets do not contain each other. */
  lemma NotInside(F: set<Clause>, A: set<Lit>, M: set<Lit>, Q: set<Lit>)
    requires IsMss(F, A, M) && IsMss(F, A, Q) && M != Q
    ensures Outside(M, Q)
  {
    hide Refuted;
    assert (forall b :: b in M ==> b in Q) ==> M <= Q;
    if M <= Q {
      assert (forall a :: a in Q ==> a in M) ==> Q <= M;
      var a :| a in Q && a !in M;
      RefutedMore(F, M + {a}, Q);
      assert false;
    }
  }

  /** Adding the clause of all assumptions outside M blocks M. */
  lemma BlockOne(F0: set<Clause>, A: set<Lit>, P: set<set<Lit>>, F: set<Clause>, M: set<Lit>, C: Clause)
    requires Blocking(F0, A, P, F) && IsMss(F0, A, M)
    requires forall l :: l in C <==> l in A && l !in M
    ensures Blocking(F0, A, P + {M}, F + {C})
  {
    forall m: Model
      ensures Models(m, F + {C}) <==> Models(m, F) && Escapes(m, A, M)
    {
      ModelsAdd(m, F, C);
      assert Satisfies(m, C) <==> Escapes(m, A, M);
    }
    hide Models, IsMss, Escapes;
    assert C in F + {C};
  }

  lemma ModelsAdd(m: Model, F: set<Clause>, C: Clause)
    ensures Models(m, F + {C}) <==> Models(m, F) && Satisfies(m, C)
  {
    hide Satisfies;
    assert C in F + {C};
    assert forall B :: B in F ==> B in F + {C};
  }
}
