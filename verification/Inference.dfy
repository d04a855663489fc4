/** What the trail and the stored clauses say about the models of the original formula. */
module Inference {
  import opened Cnf
  import opened Trails

  ghost predicate ClausesEntailed(F: set<Clause>, cls: map<Cid, Clause>) {
    forall c :: c in cls ==> Entails(F, cls[c])
  }

  ghost predicate ReasonSound(F: set<Clause>, T: Trail, l: Lit) {
    l in T.rsn && T.rsn[l].Implied? ==> Entails(F, [-T.rsn[l].other, l])
  }

  ghost predicate TopSound(F: set<Clause>, T: Trail, l: Lit) {
    l in T.lev && T.lev[l] == 0 ==> Entails(F, [l])
  }

  /** Binary reasons and top-level literals follow from the formula. */
  ghost predicate TrailSound(F: set<Clause>, T: Trail) {
    && (forall l :: l in T.rsn ==> ReasonSound(F, T, l))
    && (forall l :: l in T.lev ==> TopSound(F, T, l))
  }

  lemma SoundExtend(F: set<Clause>, T: Trail, l: Lit, r: Reason)
    requires TrailSound(F, T)
    requires r.Implied? ==> Entails(F, [-r.other, l])
    requires T.dl == 0 ==> Entails(F, [l])
    ensures TrailSound(F, Extend(T, l, r))
  {
    hide Entails;
    var U := Extend(T, l, r);
    forall k | k in U.rsn
      ensures ReasonSound(F, U, k)
    {
      assert k != l ==> ReasonSound(F, T, k);
    }
    forall k | k in U.lev
      ensures TopSound(F, U, k)
    {
      assert k != l ==> TopSound(F, T, k);
    }
  }

  lemma SoundPrefix(F: set<Clause>, T: Trail, k: nat, d: nat)
    requires Indexed(T) && k <= |T.lits|
    requires TrailSound(F, T)
    ensures TrailSound(F, Prefix(T, k, d))
  {
    hide Entails;
    var U := Prefix(T, k, d);
    forall l | l in U.rsn
      ensures ReasonSound(F, U, l)
    {
      assert ReasonSound(F, T, l);
    }
    forall l | l in U.lev
      ensures TopSound(F, U, l)
    {
      assert TopSound(F, T, l);
    }
  }

  lemma SoundMono(F: set<Clause>, G: set<Clause>, T: Trail)
    requires F <= G && TrailSound(F, T)
    ensures TrailSound(G, T)
  {
    hide Entails;
    forall l | l in T.rsn
      ensures ReasonSound(G, T, l)
    {
      assert ReasonSound(F, T, l);
      if T.rsn[l].Implied? {
        EntailsMono(F, G, [-T.rsn[l].other, l]);
      }
    }
    forall l | l in T.lev
      ensures TopSound(G, T, l)
    {
      assert TopSound(F, T, l);
      if T.lev[l] == 0 {
        EntailsMono(F, G, [l]);
      }
    }
  }

  lemma ClausesEntailedMono(F: set<Clause>, G: set<Clause>, cls: map<Cid, Clause>)
    requires F <= G && ClausesEntailed(F, cls)
    ensures ClausesEntailed(G, cls)
  {
    hide Entails;
    forall c | c in cls
      ensures Entails(G, cls[c])
    {
      EntailsMono(F, G, cls[c]);
    }
  }

  lemma ReasonEntailed(F: set<Clause>, T: Trail, cls: map<Cid, Clause>, l: Lit)
    requires TrailSound(F, T) && ClausesEntailed(F, cls) && ReasonsOk(T, cls)
    requires l in T.rsn && !T.rsn[l].Decision?
    ensures T.rsn[l].Antecedent? ==> T.rsn[l].c in cls
    ensures IsReason(T, l, ReasonLits(T.rsn, cls, l))
    ensures Entails(F, ReasonLits(T.rsn, cls, l))
  {
    hide Entails, IsReason;
    assert ReasonOk(T, cls, l);
    assert ReasonSound(F, T, l);
  }

  /** l needs no support outside M: it is a top-level fact, or its reason uses only M and top-level facts. */
  ghost predicate Supported(T: Trail, cls: map<Cid, Clause>, M: set<Lit>, l: Lit) {
    && l in T.lev && l in T.rsn
    && (T.lev[l] == 0 || (
      && !T.rsn[l].Decision?
      && (T.rsn[l].Antecedent? ==> T.rsn[l].c in cls)
      && forall k :: k in ReasonLits(T.rsn, cls, l) && k != l ==> -k in M || (-k in T.lev && T.lev[-k] == 0)))
  }

  /** Every literal of M is in the base B or supported by M. */
  ghost predicate Closed(T: Trail, cls: map<Cid, Clause>, M: set<Lit>, B: set<Lit>) {
    forall l :: l in M ==> l in T.pos && (l in B || Supported(T, cls, M, l))
  }

  lemma HoldsTop(F: set<Clause>, T: Trail, l: Lit, m: Model)
    requires TrailSound(F, T) && l in T.lev && T.lev[l] == 0
    requires Models(m, F)
    ensures Holds(m, l)
  {
    assert TopSound(F, T, l);
    assert Satisfies(m, [l]);
  }

  lemma {:induction false} ClosedHolds(F: set<Clause>, T: Trail, cls: map<Cid, Clause>, M: set<Lit>, B: set<Lit>,
                                       m: Model, l: Lit)
    requires Indexed(T) && ReasonsOk(T, cls) && TrailSound(F, T) && ClausesEntailed(F, cls)
    requires forall k :: k in T.pos ==> k != 0
    requires Closed(T, cls, M, B)
    requires Models(m, F) && Agrees(m, B)
    requires l in M
    ensures l in T.pos && Holds(m, l)
    decreases T.pos[l]
  {
    hide TrailSound, ClausesEntailed, ReasonsOk, Models;
    if l !in B {
      assert Supported(T, cls, M, l);
      if T.lev[l] == 0 {
        HoldsTop(F, T, l, m);
      } else {
        ReasonEntailed(F, T, cls, l);
        var R := ReasonLits(T.rsn, cls, l);
        assert Satisfies(m, R);
        var k :| k in R && Holds(m, k);
        if k != l {
          assert -k in T.pos && T.pos[-k] < T.pos[l];
          if -k in M {
            ClosedHolds(F, T, cls, M, B, m, -k);
          } else {
            HoldsTop(F, T, -k, m);
          }
          assert false;
        }
      }
    }
  }

  /** A model of the formula that agrees with the base agrees with everything the base supports. */
  lemma ClosedRefutes(F: set<Clause>, T: Trail, cls: map<Cid, Clause>, M: set<Lit>, B: set<Lit>)
    requires Indexed(T) && ReasonsOk(T, cls) && TrailSound(F, T) && ClausesEntailed(F, cls)
    requires forall k :: k in T.pos ==> k != 0
    requires Closed(T, cls, M, B)
    requires Refuted(F, M)
    ensures Refuted(F, B)
  {
    hide TrailSound, ClausesEntailed, ReasonsOk, Models, Indexed, Closed;
    forall m: Model | Models(m, F)
      ensures !Agrees(m, B)
    {
      if Agrees(m, B) {
        forall l | l in M
          ensures Holds(m, l)
        {
          ClosedHolds(F, T, cls, M, B, m, l);
        }
      }
    }
  }
}
