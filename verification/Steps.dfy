/** The elementary state changes of the search, and that each keeps the invariant. */
module Steps {
  import opened Cnf
  import opened Trails
  import opened Inference
  import opened Watches
  import opened States
  import opened Counting

  // ---------- a literal becomes true ----------

  function LockOf(r: Reason): set<Cid> {
    if r.Antecedent? then {r.c} else {}
  }

  /** The counters once the clause of a reason is locked. */
  function Locking(k: Counters, D: Store, r: Reason): Counters {
    k.(llocked := k.llocked + LockWeight(D, r))
  }

  function ForceState(s: State, l: Lit, r: Reason): State {
    s.(T := Extend(s.T, l, r), locked := s.locked + LockOf(r), k := Locking(s.k, s.D, r))
  }

  ghost predicate CanForce(s: State, l: Lit, r: Reason) {
    && !r.Decision?
    && Unassigned(s.T, l) && 1 <= Var(l) <= s.n
    && (r.Implied? ==> Entails(s.F, [-r.other, l]))
    && ReasonOk(Extend(s.T, l, r), s.D.cls, l)
  }

  lemma ForcedAtTop(F: set<Clause>, T: Trail, R: Clause, l: Lit)
    requires TrailSound(F, T) && Entails(F, R) && l in R
    requires forall k :: k in R && k != l ==> -k in T.lev && T.lev[-k] == 0 && k != 0
    ensures Entails(F, [l])
  {
    hide TrailSound, Models;
    forall m: Model | Models(m, F)
      ensures Satisfies(m, [l])
    {
      var k :| k in R && Holds(m, k);
      if k != l {
        HoldsTop(F, T, -k, m);
        assert false;
      }
      assert l in [l];
    }
  }

  lemma ReasonAtTop(n: nat, T: Trail, l: Lit, r: Reason, R: Clause)
    requires TrailOk(n, T) && T.dl == 0 && l !in T.pos && IsReason(Extend(T, l, r), l, R)
    ensures l in R && forall k :: k in R && k != l ==> -k in T.lev && T.lev[-k] == 0 && k != 0
  {
    hide Decided;
    forall k | k in R && k != l
      ensures -k in T.lev && T.lev[-k] == 0 && k != 0
    {
      assert -k in T.pos;
      assert 1 <= Var(-k);
    }
  }

  lemma ForceEntails(s: State, l: Lit, r: Reason)
    requires TrailOk(s.n, s.T) && TrailSound(s.F, s.T) && ClausesEntailed(s.F, s.D.cls)
    requires CanForce(s, l, r) && s.T.dl == 0
    ensures Entails(s.F, [l])
  {
    hide Entails, TrailSound, TrailOk, IsReason;
    var R := match r case Implied(o) => [-o, l] case Antecedent(c) => s.D.cls[c];
    assert IsReason(Extend(s.T, l, r), l, R);
    ReasonAtTop(s.n, s.T, l, r, R);
    ForcedAtTop(s.F, s.T, R, l);
  }

  lemma LockedExtend(T: Trail, l: Lit, r: Reason)
    requires l !in T.rsn
    ensures LockedBy(Extend(T, l, r).rsn) == LockedBy(T.rsn) + LockOf(r)
  {
    var U := Extend(T, l, r);
    forall c | c in LockedBy(T.rsn) + LockOf(r)
      ensures c in LockedBy(U.rsn)
    {
      if c in LockOf(r) {
        assert U.rsn[l].Antecedent? && U.rsn[l].c == c;
      } else {
        var k :| k in T.rsn && T.rsn[k].Antecedent? && T.rsn[k].c == c;
        assert k in U.rsn && U.rsn[k].Antecedent? && U.rsn[k].c == c;
      }
    }
    forall c | c in LockedBy(U.rsn)
      ensures c in LockedBy(T.rsn) + LockOf(r)
    {
      var k :| k in U.rsn && U.rsn[k].Antecedent? && U.rsn[k].c == c;
      if k != l {
        assert k in T.rsn && T.rsn[k].Antecedent? && T.rsn[k].c == c;
      }
    }
  }

  lemma ForceTrail(s: State, l: Lit, r: Reason)
    requires TrailInv(s) && ClausesEntailed(s.F, s.D.cls)
    requires CanForce(s, l, r)
    requires s.T.dl == 0 ==> r.Antecedent? && s.D.cls[r.c] == [l]
    ensures TrailInv(ForceState(s, l, r))
  {
    hide Layered, Decided, Consistent, ReasonsOk, IsReason, ClausesEntailed, Entails, TrailSound, LockedBy;
    ExtendOk(s.n, s.T, l, r);
    ReasonsExtend(s.T, s.D.cls, l, r);
    LockedExtend(s.T, l, r);
    if s.T.dl == 0 {
      ForceEntails(s, l, r);
    }
    SoundExtend(s.F, s.T, l, r);
  }

  lemma CoversMore(F: set<Clause>, T: Trail, D: Store, U: Trail)
    requires Covers(F, T, D)
    requires forall l :: l in T.lev && T.lev[l] == 0 ==> l in U.lev && U.lev[l] == 0
    ensures Covers(F, U, D)
  {
    hide StoredLarge, StoredBinary, Tautology;
    forall C | C in F
      ensures Covered(U, D, C)
    {
      assert Covered(T, D, C);
      if TopSatisfied(T.lev, C) {
        var l :| l in C && l in T.lev && T.lev[l] == 0;
        assert l in C && l in U.lev && U.lev[l] == 0;
      }
    }
  }

  lemma FalsifiedExtend(T: Trail, l: Lit, r: Reason, c: Clause)
    requires Indexed(T) && l !in T.pos && Falsified(T, c)
    ensures Falsified(Extend(T, l, r), c)
  {
    var U := Extend(T, l, r);
    if T.dl > 0 {
      var k :| k in c && -k in T.lev && T.lev[-k] == T.dl;
      assert k in c && -k in U.lev && U.lev[-k] == U.dl;
    }
  }

  lemma ForceStore(s: State, l: Lit, r: Reason)
    requires StoreInv(s)
    ensures StoreInv(ForceState(s, l, r))
  {
    hide ClausesOk, ImplsOk, ListsOk, StacksOk, ClausesEntailed, ImplsEntailed;
  }

  lemma ForceWatch(s: State, x: Exempt, l: Lit, r: Reason)
    requires TrailInv(s) && Unassigned(s.T, l) && QueueOk(s)
    requires WatchInv(s, x)
    ensures WatchInv(ForceState(s, l, r), x)
  {
    hide WatchesOk, BinsOk, Covers, CopiesOk, Consistent, Layered, Decided, ReasonsOk, TrailSound, TopUnits;
    if s.mtcls.None? {
      WatchesExtend(s.T, s.wdone, s.D.cls, s.D.watched - x.hole, l, r);
      BinsExtend(s.T, s.bdone, s.D.impls, x.holeB, l, r);
      CoversMore(s.F - x.uncovered, s.T, s.D, Extend(s.T, l, r));
      CopiesMore(s.F, s.T, s.D, s.F, Extend(s.T, l, r), s.D);
    }
  }

  lemma ForceQueue(s: State, l: Lit, r: Reason)
    requires TrailInv(s) && Unassigned(s.T, l) && QueueOk(s)
    ensures QueueOk(ForceState(s, l, r))
  {
    hide Consistent, Layered, Decided, ReasonsOk, TrailSound, TopUnits;
  }

  lemma ForceAssumptions(s: State, l: Lit, r: Reason)
    requires TrailInv(s) && Unassigned(s.T, l) && !r.Decision? && AssumptionsOk(s)
    ensures AssumptionsOk(ForceState(s, l, r))
  {
    hide Consistent, Layered, Decided, ReasonsOk, TrailSound, TopUnits;
    var t := ForceState(s, l, r);
    forall k | IsDecision(t.T, k) && k in t.T.lev
      ensures IsDecision(s.T, k) && k in s.T.lev && t.T.lev[k] == s.T.lev[k]
    {
    }
  }

  lemma ForceConflict(s: State, l: Lit, r: Reason)
    requires TrailInv(s) && Unassigned(s.T, l) && ConflictOk(s)
    ensures ConflictOk(ForceState(s, l, r))
  {
    hide Falsified, Consistent, Layered, Decided, ReasonsOk, TrailSound, TopUnits;
    if !s.conflict.NoClause? {
      FalsifiedExtend(s.T, l, r, ConflictLits(s.conflict, s.D.cls));
    }
  }

  /** A clause that forces an unassigned literal is not the reason of any true one. */
  lemma NotYetLocked(s: State, l: Lit, r: Reason)
    requires TrailInv(s) && CanForce(s, l, r) && r.Antecedent?
    ensures r.c !in s.locked
  {
    hide Layered, Decided, TrailSound, TopUnits, Entails;
    forall k | k in s.T.rsn && s.T.rsn[k].Antecedent?
      ensures s.T.rsn[k].c != r.c
    {
      assert ReasonOk(s.T, s.D.cls, k);
      assert l in s.D.cls[r.c] && k != l && -l !in s.T.pos;
    }
  }

  lemma StacksDistinct(s: State)
    requires StoreInv(s)
    ensures NoDup(s.ocls) && NoDup(s.lcls) && forall c :: c in s.D.learned <==> c in s.lcls
  {
    hide ClausesOk, ImplsOk, ListsOk, ParkedTrue, ClausesEntailed, ImplsEntailed;
  }

  lemma ForceTally(s: State, l: Lit, r: Reason)
    requires TrailInv(s) && StoreInv(s) && TallyOk(s) && CanForce(s, l, r)
    ensures TallyOk(ForceState(s, l, r))
  {
    hide TrailInv, StoreInv, CanForce, CountersOf, LockWeight;
    StacksDistinct(s);
    if r.Antecedent? {
      NotYetLocked(s, l, r);
      LockCounts(s.D, s.locked, s.ocls, s.lcls, r);
    } else {
      assert s.locked + {} == s.locked;
      assert LockWeight(s.D, r) == 0 by { NoLock(s.D, r); }
    }
  }

  lemma NoLock(D: Store, r: Reason)
    ensures !r.Antecedent? ==> LockWeight(D, r) == 0
  {
  }

  lemma ForceInv(s: State, x: Exempt, l: Lit, r: Reason)
    requires Invariant(s, x)
    requires CanForce(s, l, r)
    requires s.T.dl == 0 ==> r.Antecedent? && s.D.cls[r.c] == [l]
    ensures Invariant(ForceState(s, l, r), x)
  {
    hide TrailInv, WatchInv, QueueOk, AssumptionsOk, ConflictOk, TallyOk;
    hide ClausesOk, ImplsOk, ListsOk, ParkedTrue, StacksOk, ClausesEntailed, ImplsEntailed, ReasonOk;
    ForceTrail(s, l, r);
    ForceStore(s, l, r);
    ForceWatch(s, x, l, r);
    ForceQueue(s, l, r);
    ForceAssumptions(s, l, r);
    ForceConflict(s, l, r);
    ForceTally(s, l, r);
  }

  /** The watch invariant does not depend on the reasons, nor on the current level. */
  lemma SameWatch(s: State, x: Exempt, t: State)
    requires WatchInv(s, x)
    requires t.T.pos == s.T.pos && t.T.lev == s.T.lev && t.D == s.D && t.F == s.F
    requires t.wdone == s.wdone && t.bdone == s.bdone && t.mtcls == s.mtcls
    ensures WatchInv(t, x)
  {
    hide StoredLarge, StoredBinary, Tautology, CopiesOk;
    if s.mtcls.None? {
      CopiesMore(s.F, s.T, s.D, t.F, t.T, t.D);
      forall C | C in s.F - x.uncovered
        ensures Covered(t.T, t.D, C)
      {
        assert Covered(s.T, s.D, C);
      }
    }
  }
}
