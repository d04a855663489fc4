/** Backtracking to a lower decision level. */
module Undoing {
  import opened Cnf
  import opened Trails
  import opened Inference
  import opened Watches
  import opened States
  import opened Counting
  import opened Steps

  /** t is s after going back to level d, where k trail literals remain; the lists may have been relinked. */
  ghost predicate Undone(s: State, t: State, k: nat, d: nat) {
    && Indexed(s.T) && Splits(s.T, k, d)
    && t == s.(
      T := Prefix(s.T, k, d),
      D := s.D.(htps := t.D.htps, dhtps := t.D.dhtps),
      locked := LockedBy(Prefix(s.T, k, d).rsn),
      wdone := k, bdone := k, ttail := k, ttail2 := k,
      conflict := if s.mtcls.Some? then Large(s.mtcls.value) else NoClause,
      adl := if d < s.adl then 0 else s.adl,
      alstail := if d < s.adl then 0 else s.alstail,
      k := CountersOf(s.D.cls, LockedBy(Prefix(s.T, k, d).rsn), s.ocls, s.lcls))
  }

  lemma TopUnitsPrefix(T: Trail, cls: map<Cid, Clause>, k: nat, d: nat)
    requires Indexed(T) && k <= |T.lits| && TopUnits(T, cls)
    ensures TopUnits(Prefix(T, k, d), cls)
  {
    var U := Prefix(T, k, d);
    forall l | l in U.lev && U.lev[l] == 0
      ensures l in U.rsn && U.rsn[l].Antecedent? && U.rsn[l].c in cls && cls[U.rsn[l].c] == [l]
    {
      assert l in T.lev && T.lev[l] == 0;
    }
  }

  lemma UndoTrail(s: State, t: State, k: nat, d: nat)
    requires TrailInv(s) && Undone(s, t, k, d) && d <= s.T.dl
    ensures TrailInv(t)
  {
    hide Consistent, Layered, Decided, ReasonsOk, TrailSound, TopUnits, LockedBy;
    PrefixOk(s.n, s.T, k, d);
    ReasonsPrefix(s.T, s.D.cls, k, d);
    SoundPrefix(s.F, s.T, k, d);
    TopUnitsPrefix(s.T, s.D.cls, k, d);
  }

  lemma UndoStore(s: State, t: State, k: nat, d: nat)
    requires StoreInv(s) && Undone(s, t, k, d)
    requires ListsOk(t.D) && ParkedTrue(t.T, t.D.dhtps)
    ensures StoreInv(t)
  {
    hide ClausesOk, ImplsOk, ListsOk, ParkedTrue, ClausesEntailed, ImplsEntailed, StacksOk, Indexed, Splits, LockedBy;
  }

  /** Everything up to a lower level was propagated. */
  lemma LowerDone(s: State, k: nat, d: nat)
    requires TrailInv(s) && QueueOk(s) && Splits(s.T, k, d) && d < s.T.dl
    ensures k <= s.wdone && k <= s.bdone
  {
    hide Consistent, Decided, ReasonsOk, TrailSound, TopUnits, LockedBy;
    if s.wdone < |s.T.lits| {
      var l := s.T.lits[s.wdone];
      assert l in s.T.pos && s.T.pos[l] == s.wdone && s.T.lev[l] == s.T.dl;
    }
    if s.bdone < |s.T.lits| {
      var l := s.T.lits[s.bdone];
      assert l in s.T.pos && s.T.pos[l] == s.bdone && s.T.lev[l] == s.T.dl;
    }
  }

  lemma CoversRelinked(F: set<Clause>, T: Trail, D: Store, U: Trail, E: Store)
    requires Covers(F, T, D)
    requires E == D.(htps := E.htps, dhtps := E.dhtps)
    requires forall l :: l in T.lev && T.lev[l] == 0 ==> l in U.lev && U.lev[l] == 0
    ensures Covers(F, U, E)
  {
    hide Tautology, TopSatisfied, StoredBinary;
    CoversMore(F, T, D, U);
    forall C | C in F
      ensures Covered(U, E, C)
    {
      assert Covered(U, D, C);
      if StoredLarge(D, C) {
        var c :| c in D.watched && c !in D.learned && c in D.cls && SameLits(D.cls[c], C);
        assert c in E.watched && c !in E.learned && c in E.cls && SameLits(E.cls[c], C);
      }
    }
  }

  lemma UndoWatch(s: State, t: State, x: Exempt, k: nat, d: nat)
    requires TrailInv(s) && QueueOk(s) && WatchInv(s, x) && Undone(s, t, k, d)
    requires d < s.T.dl || s.mtcls.Some?
    ensures WatchInv(t, x)
  {
    hide Consistent, Layered, Decided, ReasonsOk, TrailSound, TopUnits, LockedBy, WatchesOk, BinsOk, Covers, CopiesOk;
    if s.mtcls.None? {
      LowerDone(s, k, d);
      WatchesPrefix(s.T, s.wdone, s.D.cls, s.D.watched - x.hole, k, d);
      BinsPrefix(s.T, s.bdone, s.D.impls, x.holeB, k, d);
      forall l | l in s.T.lev && s.T.lev[l] == 0
        ensures l in t.T.lev && t.T.lev[l] == 0
      {
        assert l in s.T.pos && s.T.lev[l] <= d;
      }
      CoversRelinked(s.F - x.uncovered, s.T, s.D, t.T, t.D);
      CopiesMore(s.F, s.T, s.D, t.F, t.T, t.D);
    }
  }

  lemma UndoAssumptions(s: State, t: State, k: nat, d: nat)
    requires TrailInv(s) && AssumptionsOk(s) && Undone(s, t, k, d) && d <= s.T.dl
    ensures AssumptionsOk(t)
  {
    hide Consistent, Layered, Decided, ReasonsOk, TrailSound, TopUnits, LockedBy;
    forall l | IsDecision(t.T, l) && l in t.T.lev
      ensures IsDecision(s.T, l) && l in s.T.lev && s.T.lev[l] == t.T.lev[l] <= d
    {
      assert l in s.T.pos && s.T.pos[l] < k;
    }
    if d >= s.adl && s.failed.None? {
      forall i | 0 <= i < t.alstail
        ensures t.als[i] in t.T.lev && t.T.lev[t.als[i]] <= t.adl
      {
        var a := s.als[i];
        assert a in s.T.lev && s.T.lev[a] <= d;
        assert a in s.T.pos && s.T.pos[a] < k;
      }
    }
  }

  lemma UndoRest(s: State, t: State, k: nat, d: nat)
    requires TrailInv(s) && EmptyOk(s) && ConflictOk(s) && Undone(s, t, k, d) && d <= s.T.dl
    requires s.mtcls.Some? ==> Entails(s.F, [])
    ensures ConflictOk(t) && EmptyOk(t) && QueueOk(t) && TallyOk(t)
    ensures t.n == s.n && t.F == s.F
  {
    hide Consistent, Layered, Decided, ReasonsOk, TrailSound, TopUnits, LockedBy, Entails;
  }

  /** Backtracking keeps the invariant, and nothing is left to propagate below. */
  lemma UndoKeeps(s: State, t: State, x: Exempt, k: nat, d: nat)
    requires Invariant(s, x) && Undone(s, t, k, d)
    requires d < s.T.dl || (d == s.T.dl && s.mtcls.Some?)
    requires ListsOk(t.D) && ParkedTrue(t.T, t.D.dhtps)
    ensures Invariant(t, x)
  {
    hide TrailInv, WatchInv, QueueOk, AssumptionsOk, ConflictOk, ListsOk, ParkedTrue, Undone;
    hide ClausesOk, ImplsOk, ImplsEntailed, StacksOk;
    if s.mtcls.Some? {
      assert Entails(s.F, []) by { assert Entails(s.F, s.D.cls[s.mtcls.value]); }
    }
    UndoTrail(s, t, k, d);
    UndoStore(s, t, k, d);
    UndoWatch(s, t, x, k, d);
    UndoAssumptions(s, t, k, d);
    UndoRest(s, t, k, d);
  }

  // ---------- taking the last literal off ----------

  lemma PrefixStep(T: Trail, k: nat)
    requires Indexed(T) && 0 < k <= |T.lits|
    ensures var l := T.lits[k - 1];
      Prefix(T, k, T.dl).(lits := T.lits[..k - 1], lev := Prefix(T, k, T.dl).lev - {l},
        rsn := Prefix(T, k, T.dl).rsn - {l}, pos := Prefix(T, k, T.dl).pos - {l}) == Prefix(T, k - 1, T.dl)
  {
    var l := T.lits[k - 1];
    var P := Prefix(T, k, T.dl);
    var Q := Prefix(T, k - 1, T.dl);
    assert l in T.pos && T.pos[l] == k - 1;
    forall j | j in P.pos
      ensures j == l || j in Q.pos
    {
      assert j in T.pos && T.lits[T.pos[j]] == j;
    }
    assert P.lev - {l} == Q.lev;
    assert P.rsn - {l} == Q.rsn;
    assert P.pos - {l} == Q.pos;
  }

  /** A clause is the reason of at most one literal. */
  lemma UniqueReason(n: nat, T: Trail, cls: map<Cid, Clause>, l: Lit, k: Lit)
    requires Indexed(T) && Consistent(n, T) && ReasonsOk(T, cls)
    requires l in T.rsn && k in T.rsn && T.rsn[l].Antecedent? && T.rsn[k] == T.rsn[l]
    ensures l == k
  {
    assert ReasonOk(T, cls, l) && ReasonOk(T, cls, k);
    assert k in cls[T.rsn[l].c];
    assert k != l ==> -k in T.pos;
  }

  lemma LockedStep(n: nat, T: Trail, cls: map<Cid, Clause>, k: nat)
    requires TrailOk(n, T) && ReasonsOk(T, cls) && 0 < k <= |T.lits|
    ensures var P := Prefix(T, k, T.dl);
      var l := T.lits[k - 1];
      l in P.rsn && LockedBy(Prefix(T, k - 1, T.dl).rsn) == LockedBy(P.rsn) - LockOf(P.rsn[l])
  {
    hide Layered, Decided, ReasonsOk, Consistent;
    var P := Prefix(T, k, T.dl);
    var Q := Prefix(T, k - 1, T.dl);
    var l := T.lits[k - 1];
    PrefixStep(T, k);
    assert l in T.pos && l in P.rsn;
    forall c | c in LockedBy(Q.rsn)
      ensures c in LockedBy(P.rsn) - LockOf(P.rsn[l])
    {
      var j :| j in Q.rsn && Q.rsn[j].Antecedent? && Q.rsn[j].c == c;
      assert j in P.rsn && P.rsn[j].Antecedent? && P.rsn[j].c == c;
      if c in LockOf(P.rsn[l]) {
        UniqueReason(n, T, cls, l, j);
        assert false;
      }
    }
    forall c | c in LockedBy(P.rsn) - LockOf(P.rsn[l])
      ensures c in LockedBy(Q.rsn)
    {
      var j :| j in P.rsn && P.rsn[j].Antecedent? && P.rsn[j].c == c;
      assert j != l;
      assert j in Q.rsn && Q.rsn[j].Antecedent? && Q.rsn[j].c == c;
    }
  }

  /** The state reached while literals are taken off the trail of s: k are left. */
  ghost predicate Popped(s: State, t: Trail, D: Store, locked: set<Cid>, counts: Counters, k: nat) {
    && Indexed(s.T) && k <= |s.T.lits|
    && t == Prefix(s.T, k, s.T.dl)
    && D == s.D.(htps := D.htps, dhtps := D.dhtps)
    && ListsOk(D) && ParkedTrue(t, D.dhtps)
    && locked == LockedBy(t.rsn)
    && counts == CountersOf(s.D.cls, locked, s.ocls, s.lcls)
  }

  ghost predicate AllAbove(T: Trail, k: nat, d: nat) {
    forall j :: k <= j < |T.lits| ==> T.lits[j] in T.lev && T.lev[T.lits[j]] > d
  }

  lemma PrefixWhole(T: Trail)
    requires Indexed(T)
    ensures Prefix(T, |T.lits|, T.dl) == T
  {
    var P := Prefix(T, |T.lits|, T.dl);
    assert P.lits == T.lits;
    assert forall l :: l in P.pos <==> l in T.pos;
    assert forall l :: l in P.lev <==> l in T.lev;
    assert forall l :: l in P.rsn <==> l in T.rsn;
    assert P.lev == T.lev && P.rsn == T.rsn && P.pos == T.pos;
  }

  lemma PopStart(s: State, x: Exempt)
    requires Invariant(s, x)
    ensures Popped(s, s.T, s.D, s.locked, s.k, |s.T.lits|)
  {
    hide Layered, Decided, Consistent, ReasonsOk, TrailSound, TopUnits, LockedBy, ListsOk, ParkedTrue, Prefix;
    hide WatchInv, QueueOk, AssumptionsOk, ConflictOk, EmptyOk;
    hide ClausesOk, ImplsOk, StacksOk, ImplsEntailed, ClausesEntailed;
    PrefixWhole(s.T);
  }

  /** The last literal of the trail is above level d unless it has level d. */
  lemma LastLevel(s: State, k: nat, d: nat)
    requires TrailInv(s) && 0 < k <= |s.T.lits| && d <= s.T.dl && AllAbove(s.T, k, d)
    ensures var l := s.T.lits[k - 1];
      l in Prefix(s.T, k, s.T.dl).lev && l in Prefix(s.T, k, s.T.dl).rsn && l in s.T.lev &&
      Prefix(s.T, k, s.T.dl).lev[l] == s.T.lev[l] >= d
  {
    hide Consistent, ReasonsOk, TrailSound, TopUnits, LockedBy;
    var l := s.T.lits[k - 1];
    assert l in s.T.pos && s.T.pos[l] == k - 1;
    if d > 0 {
      assert HasDecision(s.T, d);
      var j :| IsDecision(s.T, j) && j in s.T.lev && s.T.lev[j] == d;
      assert j in s.T.pos && s.T.lits[s.T.pos[j]] == j;
      assert s.T.pos[j] < k;
      assert s.T.pos[j] <= s.T.pos[l];
    }
  }

  /** The counters once the clause of a reason is unlocked. */
  function Unlocking(k: Counters, D: Store, r: Reason): Counters {
    k.(llocked := k.llocked - LockWeight(D, r))
  }

  lemma UnlockStep(s: State, t: Trail, D: Store, locked: set<Cid>, counts: Counters, k: nat)
    requires StoreInv(s) && Popped(s, t, D, locked, counts, k) && k > 0 && s.T.lits[k - 1] in t.rsn
    ensures var r := t.rsn[s.T.lits[k - 1]];
      Unlocking(counts, D, r) == CountersOf(s.D.cls, locked - LockOf(r), s.ocls, s.lcls)
  {
    hide StoreInv, CountersOf, Prefix, ListsOk, ParkedTrue, Indexed;
    StacksDistinct(s);
    var r := t.rsn[s.T.lits[k - 1]];
    if r.Antecedent? {
      var l := s.T.lits[k - 1];
      assert l in t.rsn && t.rsn[l].Antecedent? && t.rsn[l].c == r.c;
      UnlockCounts(s.D, locked, s.ocls, s.lcls, r);
    } else {
      assert locked - {} == locked;
    }
  }

  lemma PopKeeps(s: State, t: Trail, D: Store, locked: set<Cid>, counts: Counters, k: nat,
                 t': Trail, D': Store, locked': set<Cid>, counts': Counters)
    requires TrailInv(s) && StoreInv(s) && Popped(s, t, D, locked, counts, k) && k > 0
    requires var l := s.T.lits[k - 1];
      && t' == t.(lits := t.lits[..k - 1], lev := t.lev - {l}, rsn := t.rsn - {l}, pos := t.pos - {l})
      && l in t.rsn && locked' == locked - LockOf(t.rsn[l]) && counts' == Unlocking(counts, D, t.rsn[l])
      && D' == D.(htps := D'.htps, dhtps := D'.dhtps) && ListsOk(D')
      && At(D'.dhtps, l) == [] && forall j :: j != l ==> At(D'.dhtps, j) == At(D.dhtps, j)
    ensures Popped(s, t', D', locked', counts', k - 1)
  {
    hide Consistent, Layered, Decided, ReasonsOk, TrailSound, TopUnits, LockedBy;
    hide ListsOk, At, Prefix, StoreInv, CountersOf, Unlocking;
    PrefixStep(s.T, k);
    PrefixCut(s.T, k);
    LockedStep(s.n, s.T, s.D.cls, k);
    UnlockStep(s, t, D, locked, counts, k);
  }

  lemma PrefixCut(T: Trail, k: nat)
    requires Indexed(T) && 0 < k <= |T.lits|
    ensures Prefix(T, k, T.dl).lits[..k - 1] == T.lits[..k - 1]
    ensures Prefix(T, k, T.dl).lits[k - 1] == T.lits[k - 1]
  {
  }

  /** Undoing stops where the levels up to d end. */
  lemma PopSplits(s: State, k: nat, d: nat)
    requires TrailInv(s) && k <= |s.T.lits| && AllAbove(s.T, k, d)
    requires k > 0 ==> s.T.lits[k - 1] in s.T.lev && s.T.lev[s.T.lits[k - 1]] == d
    ensures Splits(s.T, k, d)
  {
    hide Consistent, Decided, ReasonsOk, TrailSound, TopUnits, LockedBy;
    forall l | l in s.T.pos
      ensures s.T.pos[l] < k <==> s.T.lev[l] <= d
    {
      assert s.T.lits[s.T.pos[l]] == l;
      if s.T.pos[l] < k {
        var last := s.T.lits[k - 1];
        assert last in s.T.pos && s.T.pos[last] == k - 1;
      }
    }
  }

  lemma PrefixDown(T: Trail, k: nat, d: nat)
    requires Indexed(T) && k <= |T.lits|
    ensures Prefix(T, k, T.dl).(dl := d) == Prefix(T, k, d)
  {
  }

  lemma LastKnown(n: nat, T: Trail, k: nat)
    requires TrailOk(n, T) && 0 < k <= |T.lits|
    ensures 1 <= Var(T.lits[k - 1]) <= n
  {
    hide Layered, Decided;
  }

  lemma PopReady(s: State, x: Exempt, t: Trail, D: Store, locked: set<Cid>, counts: Counters, k: nat, d: nat)
    requires Invariant(s, x) && Popped(s, t, D, locked, counts, k) && AllAbove(s.T, k, d) && d <= s.T.dl
    ensures TrailInv(s) && StoreInv(s) && |t.lits| == k && ListsOk(D) && D.cls == s.D.cls && ClausesOk(s.n, D.cls)
    ensures k > 0 ==> var l := t.lits[k - 1]; l == s.T.lits[k - 1] && l in t.lev && l in t.rsn && t.lev[l] >= d
    ensures k > 0 ==> 1 <= Var(t.lits[k - 1]) <= s.n
    ensures k > 0 && t.lev[t.lits[k - 1]] != d ==> AllAbove(s.T, k - 1, d)
    ensures k > 0 && t.lev[t.lits[k - 1]] == d ==> Splits(s.T, k, d)
    ensures k == 0 ==> Splits(s.T, k, d)
  {
    hide Consistent, Layered, Decided, ReasonsOk, TrailSound, TopUnits;
    hide LockedBy, ListsOk, ClausesOk, ParkedTrue, Splits;
    hide WatchInv, QueueOk, AssumptionsOk, ConflictOk, EmptyOk, ImplsOk, StacksOk, ImplsEntailed, ClausesEntailed;
    if k > 0 {
      LastLevel(s, k, d);
      LastKnown(s.n, s.T, k);
      PrefixCut(s.T, k);
      if t.lev[t.lits[k - 1]] == d {
        PopSplits(s, k, d);
      }
    } else {
      PopSplits(s, k, d);
    }
  }

  lemma PopDone(s: State, t: Trail, D: Store, locked: set<Cid>, counts: Counters, k: nat, d: nat, u: State)
    requires Popped(s, t, D, locked, counts, k) && Splits(s.T, k, d)
    requires u == s.(T := t.(dl := d), D := D, locked := locked, wdone := k, bdone := k, ttail := k, ttail2 := k,
      conflict := if s.mtcls.Some? then Large(s.mtcls.value) else NoClause,
      adl := if d < s.adl then 0 else s.adl, alstail := if d < s.adl then 0 else s.alstail, k := counts)
    ensures Undone(s, u, k, d)
    ensures ListsOk(u.D) && ParkedTrue(u.T, u.D.dhtps)
  {
    hide ListsOk, LockedBy, Prefix, Splits, Indexed;
    PrefixDown(s.T, k, d);
    PrefixDownKeeps(s.T, k, d);
  }

  lemma PrefixDownKeeps(T: Trail, k: nat, d: nat)
    requires Indexed(T) && k <= |T.lits|
    ensures Prefix(T, k, d).rsn == Prefix(T, k, T.dl).rsn && Prefix(T, k, d).pos == Prefix(T, k, T.dl).pos
  {
  }

  lemma NothingAbove(T: Trail, d: nat)
    ensures AllAbove(T, |T.lits|, d)
  {
  }
}
