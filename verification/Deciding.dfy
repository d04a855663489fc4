/** Decisions: assumptions are decided first, in their order, and the other variables only after all of them. */
module Deciding {
  import opened Cnf
  import opened Trails
  import opened Inference
  import opened Watches
  import opened States
  import opened Steps

  /** Nothing is left to propagate, and there is no conflict. */
  ghost predicate Settled(s: State) {
    && s.conflict.NoClause? && s.mtcls.None?
    && s.wdone == s.bdone == s.ttail == s.ttail2 == |s.T.lits|
  }

  ghost predicate Quiescent(s: State) {
    Settled(s) && s.failed.None?
  }

  /** The assumptions from position i up to j are true. */
  ghost predicate AllTrue(level: map<Lit, nat>, als: seq<Lit>, i: nat, j: nat) {
    forall p :: i <= p < j && p < |als| ==> als[p] in level
  }

  /** From position i on, lit is the first assumption that is not true, and failed that assumption if it is false. */
  ghost predicate NextAssumption(level: map<Lit, nat>, als: seq<Lit>, i: nat, tail: nat, lit: Option<Lit>,
                                 failed: Option<Lit>) {
    && i <= tail <= |als|
    && if lit.None? && failed.None? then tail == |als| && AllTrue(level, als, i, tail)
       else
         && i < tail && AllTrue(level, als, i, tail - 1)
         && (lit.Some? ==> lit.value == als[tail - 1] && failed.None?)
         && (failed.Some? ==> failed.value == als[tail - 1] && -failed.value in level)
  }

  function DecideState(s: State, l: Lit): State {
    s.(T := Decide(s.T, l))
  }

  /** The next assumption is true already. */
  function SkipState(s: State): State
    requires s.alstail < |s.als| && s.als[s.alstail] in s.T.lev
  {
    var level := s.T.lev[s.als[s.alstail]];
    s.(alstail := s.alstail + 1, adl := if level > s.adl then level else s.adl)
  }

  /** The next assumption is decided. */
  function AssumeState(s: State): State
    requires s.alstail < |s.als|
  {
    DecideState(s.(alstail := s.alstail + 1, adl := s.T.dl + 1), s.als[s.alstail])
  }

  /** The next assumption is false. */
  function FailState(s: State): State
    requires s.alstail < |s.als|
  {
    s.(alstail := s.alstail + 1, failed := Some(s.als[s.alstail]))
  }

  lemma DecideTrail(s: State, l: Lit)
    requires TrailInv(s) && Unassigned(s.T, l) && 1 <= Var(l) <= s.n
    ensures TrailInv(DecideState(s, l))
  {
    hide Consistent, Layered, Decided, IsReason, LockedBy, TrailSound;
    var S := s.T.(dl := s.T.dl + 1);
    DecideOk(s.n, s.T, l);
    assert Decide(s.T, l) == Extend(S, l, Decision);
    assert Indexed(S);
    assert ReasonsOk(S, s.D.cls) by { RaiseReasons(s.T, s.D.cls); }
    ReasonsExtend(S, s.D.cls, l, Decision);
    RaiseSound(s.F, s.T);
    SoundExtend(s.F, S, l, Decision);
    LockedExtend(S, l, Decision);
  }

  lemma RaiseReasons(T: Trail, cls: map<Cid, Clause>)
    requires ReasonsOk(T, cls)
    ensures ReasonsOk(T.(dl := T.dl + 1), cls)
  {
    var S := T.(dl := T.dl + 1);
    forall l | l in S.rsn
      ensures ReasonOk(S, cls, l)
    {
      assert ReasonOk(T, cls, l);
      hide ReasonOk;
      RaiseReason(T, cls, l);
    }
  }

  lemma RaiseReason(T: Trail, cls: map<Cid, Clause>, l: Lit)
    requires l in T.rsn && ReasonOk(T, cls, l)
    ensures ReasonOk(T.(dl := T.dl + 1), cls, l)
  {
  }

  lemma RaiseSound(F: set<Clause>, T: Trail)
    requires TrailSound(F, T)
    ensures TrailSound(F, T.(dl := T.dl + 1))
  {
    hide Entails;
    var S := T.(dl := T.dl + 1);
    forall l | l in S.rsn
      ensures ReasonSound(F, S, l)
    {
      assert ReasonSound(F, T, l);
    }
    forall l | l in S.lev
      ensures TopSound(F, S, l)
    {
      assert TopSound(F, T, l);
    }
  }

  lemma DecideWatch(s: State, l: Lit)
    requires TrailInv(s) && Unassigned(s.T, l) && WatchInv(s, NOTHING) && Quiescent(s)
    ensures WatchInv(DecideState(s, l), NOTHING)
  {
    hide WatchesOk, BinsOk, Covers, CopiesOk, Consistent, Layered, Decided, ReasonsOk, TrailSound, TopUnits;
    var S := s.T.(dl := s.T.dl + 1);
    SameWatch(s, NOTHING, s.(T := S));
    WatchesExtend(S, s.wdone, s.D.cls, s.D.watched - {}, l, Decision);
    BinsExtend(S, s.bdone, s.D.impls, {}, l, Decision);
    CoversMore(s.F - {}, s.T, s.D, Decide(s.T, l));
    CopiesMore(s.F, s.T, s.D, s.F, Decide(s.T, l), s.D);
  }

  lemma DecideStore(s: State, l: Lit)
    requires StoreInv(s)
    ensures StoreInv(DecideState(s, l))
  {
    hide ClausesOk, ImplsOk, ListsOk, StacksOk, ClausesEntailed, ImplsEntailed;
  }

  lemma DecideQueue(s: State, l: Lit)
    requires TrailInv(s) && Unassigned(s.T, l) && Quiescent(s)
    ensures QueueOk(DecideState(s, l))
  {
    hide Consistent, Layered, Decided, ReasonsOk, TrailSound, TopUnits;
  }

  lemma DecideInv(s: State, l: Lit)
    requires Invariant(s, NOTHING) && Quiescent(s) && Unassigned(s.T, l) && 1 <= Var(l) <= s.n
    requires AssumptionsOk(DecideState(s, l))
    ensures Invariant(DecideState(s, l), NOTHING)
  {
    hide TrailInv, StoreInv, WatchInv, QueueOk, AssumptionsOk, Decide;
    DecideTrail(s, l);
    DecideStore(s, l);
    DecideWatch(s, l);
    DecideQueue(s, l);
  }

  // ---------- assumptions ----------

  lemma AssumptionsKeep(s: State, t: State)
    requires Invariant(s, NOTHING) && AssumptionsOk(t)
    requires t == s.(alstail := t.alstail, adl := t.adl, failed := t.failed)
    ensures Invariant(t, NOTHING)
  {
    hide TrailOk, ReasonsOk, TrailSound, TopUnits, LockedBy, AssumptionsOk;
    hide ClausesOk, ImplsOk, ListsOk, ParkedTrue, StacksOk, ClausesEntailed, ImplsEntailed;
    hide WatchesOk, BinsOk, Covers, CopiesOk, Falsified, Entails, FormulaOk;
  }

  lemma SkipKeeps(s: State)
    requires Invariant(s, NOTHING) && Quiescent(s) && s.alstail < |s.als| && s.als[s.alstail] in s.T.lev
    ensures Invariant(SkipState(s), NOTHING) && Quiescent(SkipState(s))
  {
    hide ReasonsOk, TrailSound, TopUnits, LockedBy, Consistent, Decided;
    hide StoreInv, WatchInv, QueueOk, ConflictOk, FormulaOk;
    assert Layered(s.T);
    var l := s.als[s.alstail];
    assert s.T.lev[l] <= s.T.dl;
    SkipAssumptions(s);
    AssumptionsKeep(s, SkipState(s));
  }

  lemma SkipAssumptions(s: State)
    requires AssumptionsOk(s) && s.failed.None? && s.alstail < |s.als| && s.als[s.alstail] in s.T.lev
    requires s.T.lev[s.als[s.alstail]] <= s.T.dl
    ensures AssumptionsOk(SkipState(s))
  {
    var t := SkipState(s);
    forall i | 0 <= i < t.alstail
      ensures t.als[i] in t.T.lev && t.T.lev[t.als[i]] <= t.adl
    {
      assert i < s.alstail ==> s.als[i] in s.T.lev;
    }
  }

  /** The assumption that fails was found false by decisions that are all assumptions. */
  lemma FailKeeps(s: State)
    requires Invariant(s, NOTHING) && Quiescent(s) && s.alstail < |s.als|
    ensures Invariant(FailState(s), NOTHING) && Settled(FailState(s))
  {
    hide TrailInv, StoreInv, WatchInv, QueueOk, ConflictOk, FormulaOk;
    assert AssumptionsOk(FailState(s));
    AssumptionsKeep(s, FailState(s));
  }

  lemma AssumeKeeps(s: State)
    requires Invariant(s, NOTHING) && Quiescent(s) && s.alstail < |s.als| && Unassigned(s.T, s.als[s.alstail])
    ensures Invariant(AssumeState(s), NOTHING)
  {
    hide Invariant, AssumptionsOk;
    var l := s.als[s.alstail];
    AssumeAls(s);
    AssumeParts(s, l);
    AssumedInv(s, l);
  }

  lemma AssumedInv(s: State, l: Lit)
    requires Invariant(s, NOTHING) && Quiescent(s) && s.alstail < |s.als| && s.als[s.alstail] == l
    requires Unassigned(s.T, l) && 1 <= Var(l) <= s.n && AssumptionsOk(AssumeState(s))
    ensures Invariant(AssumeState(s), NOTHING)
  {
    hide TrailInv, StoreInv, WatchInv, QueueOk, AssumptionsOk, ConflictOk, EmptyOk, FormulaOk, Quiescent;
    DecideInvParts(s, l, s.alstail + 1, s.T.dl + 1);
  }

  /** Like DecideInv, for a state whose assumption fields change as well. */
  lemma DecideInvParts(s: State, l: Lit, alstail: nat, adl: nat)
    requires Invariant(s, NOTHING) && Quiescent(s) && Unassigned(s.T, l) && 1 <= Var(l) <= s.n
    requires AssumptionsOk(DecideState(s.(alstail := alstail, adl := adl), l))
    ensures Invariant(DecideState(s.(alstail := alstail, adl := adl), l), NOTHING)
  {
    hide TrailOk, ReasonsOk, TrailSound, TopUnits, LockedBy, AssumptionsOk, Decide;
    hide ClausesOk, ImplsOk, ListsOk, ParkedTrue, StacksOk, ClausesEntailed, ImplsEntailed;
    hide WatchesOk, BinsOk, Covers, CopiesOk, Falsified, Entails, FormulaOk;
    var t := s.(alstail := alstail, adl := adl);
    hide Quiescent;
    assert Quiescent(t) by { QuiescentSame(s, t); }
    DecideTrail(t, l);
    DecideStore(t, l);
    DecideWatch(t, l);
    DecideQueue(t, l);
    DecideRest(s, t, l);
  }

  lemma QuiescentSame(s: State, t: State)
    requires Quiescent(s) && t == s.(alstail := t.alstail, adl := t.adl)
    ensures Quiescent(t)
  {
  }

  lemma DecideRest(s: State, t: State, l: Lit)
    requires Quiescent(s) && FormulaOk(s.n, s.F) && t == s.(alstail := t.alstail, adl := t.adl)
    ensures ConflictOk(DecideState(t, l)) && EmptyOk(DecideState(t, l)) && FormulaOk(t.n, t.F)
  {
  }

  lemma AssumeAls(s: State)
    requires Invariant(s, NOTHING) && s.alstail < |s.als|
    ensures s.als[s.alstail] in s.als && 1 <= Var(s.als[s.alstail]) <= s.n
  {
    hide TrailInv, StoreInv, WatchInv, QueueOk, ConflictOk, EmptyOk, FormulaOk;
    var l := s.als[s.alstail];
    assert l in s.als;
  }

  lemma AssumeParts(s: State, l: Lit)
    requires Invariant(s, NOTHING) && Quiescent(s) && s.alstail < |s.als| && l == s.als[s.alstail] && Unassigned(s.T, l)
    ensures AssumptionsOk(AssumeState(s))
  {
    hide ReasonsOk, TrailSound, TopUnits, LockedBy, Consistent, Decided;
    hide StoreInv, WatchInv, QueueOk, ConflictOk, FormulaOk;
    var t := AssumeState(s);
    assert l in s.als;
    forall k | IsDecision(t.T, k) && k in t.T.lev
      ensures k in t.als
    {
      assert k != l ==> IsDecision(s.T, k) && k in s.T.lev;
    }
  }

  /** Once all assumptions are true, any unassigned literal may be decided. */
  lemma FreeDecision(s: State, l: Lit)
    requires Invariant(s, NOTHING) && Quiescent(s) && s.alstail == |s.als|
    requires Unassigned(s.T, l) && 1 <= Var(l) <= s.n
    ensures Invariant(DecideState(s, l), NOTHING)
  {
    hide Invariant, AssumptionsOk;
    FreeAssumptions(s, l);
    hide DecideState;
    DecideInv(s, l);
  }

  lemma FreeAssumptions(s: State, l: Lit)
    requires Invariant(s, NOTHING) && Quiescent(s) && s.alstail == |s.als| && Unassigned(s.T, l)
    ensures AssumptionsOk(DecideState(s, l))
  {
    hide ReasonsOk, TrailSound, TopUnits, LockedBy, Consistent, Decided;
    hide StoreInv, WatchInv, QueueOk, ConflictOk, FormulaOk;
    var t := DecideState(s, l);
    forall k | IsDecision(t.T, k) && k in t.T.lev && k != l
      ensures IsDecision(s.T, k) && k in s.T.lev && s.T.lev[k] == t.T.lev[k]
    {
    }
  }
}
