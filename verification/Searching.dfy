/** Facts about the states the search goes through: what its steps leave alone, and how they make progress. */
module Searching {
  import opened Cnf
  import opened Trails
  import opened Inference
  import opened Watches
  import opened Links
  import opened Sorting
  import opened States
  import opened Counting
  import opened Steps
  import opened Storing
  import opened Undoing
  import opened Adding
  import opened Originals
  import opened Analysis
  import opened Minimizing
  import opened Backtracking
  import opened Forcing
  import opened Propagating
  import opened WatchPropagation
  import opened Deciding
  import opened Failing
  import opened Collecting
  import opened Progress

  // ---------- progress ----------

  lemma DecidedProgress(s: State, u: State, l: Lit)
    requires Invariant(s, NOTHING) && s.T.lits <= u.T.lits && u.T.lev == s.T.lev[l := s.T.dl + 1] && l !in s.T.lev
    requires |u.T.lits| > |s.T.lits|
    ensures Weight(s.n, s.T.lev, s.T.lits) < Weight(s.n, u.T.lev, u.T.lits)
    ensures FixedCount(s.T.lev, s.T.lits) <= FixedCount(u.T.lev, u.T.lits)
  {
    hide Invariant, Weight, FixedCount;
    InvKeys(s);
    forall k | k in s.T.lits
      ensures k in s.T.lev && k in u.T.lev && s.T.lev[k] == u.T.lev[k]
    {
      assert k in s.T.pos;
    }
    GrownWeight(s.n, s.T, u.T);
  }

  lemma DecideIs(s: State, u: State, l: Lit)
    requires Settled(s) && u == s.(T := Decide(s.T, l)) && Unassigned(s.T, l) && s.T.lev.Keys == s.T.pos.Keys
    ensures u == DecideState(s, l) && Synced(u) && u.conflict.NoClause? && u.mtcls.None?
    ensures s.T.lits <= u.T.lits && |u.T.lits| == |s.T.lits| + 1 && u.T.lev == s.T.lev[l := s.T.dl + 1] && l !in s.T.lev
  {
  }

  lemma InvWeight(s: State)
    requires Invariant(s, NOTHING)
    ensures Weight(s.n, s.T.lev, s.T.lits) <= TopWeight(s.n)
    ensures FixedCount(s.T.lev, s.T.lits) <= s.n
  {
    hide ReasonsOk, TrailSound, TopUnits, LockedBy;
    hide StoreInv, WatchInv, QueueOk, AssumptionsOk, ConflictOk, EmptyOk, FormulaOk, TallyOk;
    TrailWeight(s.n, s.T);
  }

  lemma SettledSynced(s: State)
    requires Settled(s)
    ensures Synced(s) && s.conflict.NoClause? && s.mtcls.None?
    ensures s.failed.None? ==> Quiescent(s)
  {
  }

  lemma BcpSettled(s: State, u: State)
    requires Grows(s, u) && Synced(u)
    requires u.mtcls.None? && u.conflict.NoClause? ==> u.ttail == |u.T.lits| && u.ttail2 == |u.T.lits|
    ensures u.mtcls.None? && u.conflict.NoClause? ==> Settled(u)
    ensures u.mtcls == s.mtcls && u.failed == s.failed && u.T.dl == s.T.dl
  {
  }

  lemma GrowsProgress(s: State, u: State)
    requires Invariant(s, NOTHING) && Grows(s, u)
    ensures Weight(s.n, s.T.lev, s.T.lits) <= Weight(s.n, u.T.lev, u.T.lits)
    ensures FixedCount(s.T.lev, s.T.lits) <= FixedCount(u.T.lev, u.T.lits)
    ensures u.mtcls == s.mtcls && u.n == s.n
  {
    hide Invariant, Weight, FixedCount;
    InvKeys(s);
    forall l | l in s.T.lits
      ensures l in s.T.lev && l in u.T.lev && s.T.lev[l] == u.T.lev[l]
    {
      assert l in s.T.pos;
    }
    GrownWeight(s.n, s.T, u.T);
  }

  lemma InvLevels(s: State)
    requires Invariant(s, NOTHING)
    ensures Indexed(s.T) && s.T.dl <= s.n && |s.T.lits| <= s.n
    ensures forall l :: l in s.T.lev ==> s.T.lev[l] <= s.n
  {
    hide Consistent, Decided, ReasonsOk, TrailSound, TopUnits, LockedBy;
    hide StoreInv, WatchInv, QueueOk, AssumptionsOk, ConflictOk, EmptyOk, FormulaOk, TallyOk;
    LevelsFit(s.n, s.T);
  }

  lemma JumpedProgress(s: State, U: Trail, k: nat, l: Lit)
    requires Invariant(s, NOTHING) && Jumped(s.T, U, k, l)
    ensures Weight(s.n, s.T.lev, s.T.lits) < Weight(s.n, U.lev, U.lits)
    ensures FixedCount(s.T.lev, s.T.lits) <= FixedCount(U.lev, U.lits)
  {
    hide Invariant, Weight, FixedCount;
    InvLevels(s);
    forall i | k <= i < |s.T.lits|
      ensures s.T.lits[i] in s.T.lev && U.dl < s.T.lev[s.T.lits[i]] <= s.n
    {
      var x := s.T.lits[i];
      assert x in s.T.pos && s.T.pos[x] == i;
    }
    JumpedWeight(s.n, s.T, U, k, l, U.dl);
  }

  // ---------- deciding ----------

  lemma QuiescentFacts(s: State)
    requires Quiescent(s)
    ensures Settled(s) && s.failed.None?
  {
    hide Settled;
  }

  lemma InvAls(s: State)
    requires Invariant(s, NOTHING)
    ensures s.alstail <= |s.als|
  {
    hide TrailInv, StoreInv, WatchInv, QueueOk, ConflictOk, EmptyOk, FormulaOk, TallyOk;
  }

  lemma InvKeys(s: State)
    requires Invariant(s, NOTHING)
    ensures Indexed(s.T) && s.T.lev.Keys == s.T.pos.Keys
  {
    hide Consistent, Layered, Decided, ReasonsOk, TrailSound, TopUnits, LockedBy;
    hide StoreInv, WatchInv, QueueOk, AssumptionsOk, ConflictOk, EmptyOk, FormulaOk, TallyOk;
  }

  lemma SameKeys(s: State, u: State)
    requires Invariant(s, NOTHING) && u.T == s.T.(rsn := u.T.rsn)
    ensures u.T.lev.Keys == u.T.pos.Keys
  {
    hide Invariant;
    InvKeys(s);
  }

  lemma FreeIs(T: Trail, l: Lit)
    requires T.lev.Keys == T.pos.Keys && l !in T.lev && -l !in T.lev
    ensures Unassigned(T, l)
  {
  }

  lemma FailIs(s: State, u: State)
    requires s.alstail < |s.als| && u == s.(alstail := s.alstail + 1, failed := Some(s.als[s.alstail]))
    ensures u == FailState(s)
  {
  }

  lemma SkipIs(s: State, u: State)
    requires s.alstail < |s.als| && s.als[s.alstail] in s.T.lev
    requires u == s.(alstail := s.alstail + 1,
                     adl := if s.T.lev[s.als[s.alstail]] > s.adl then s.T.lev[s.als[s.alstail]] else s.adl)
    ensures u == SkipState(s)
  {
  }

  lemma AssumeIs(s: State, u: State)
    requires s.alstail < |s.als| && Settled(s)
    requires u == s.(alstail := s.alstail + 1, adl := s.T.dl + 1)
    ensures DecideState(u, s.als[s.alstail]) == AssumeState(s) && Settled(u)
  {
  }

  lemma LostNow(s: State)
    requires Invariant(s, NOTHING) && s.failed.Some? && s.failed.value in s.als && -s.failed.value in s.T.lev
    ensures Lost(s, s.failed.value)
  {
    hide TrailInv, StoreInv, WatchInv, QueueOk, ConflictOk, EmptyOk, FormulaOk, TallyOk;
  }

  // ---------- deleting clauses ----------

  lemma CollectFacts(s: State, del: set<Cid>)
    requires Invariant(s, NOTHING) && CanCollect(s, del)
    ensures StoreInv(s) && TallyOk(s) && forall c :: c in del ==> c !in s.locked
  {
    hide TrailInv, StoreInv, WatchInv, QueueOk, AssumptionsOk, ConflictOk, EmptyOk, FormulaOk, TallyOk;
  }

  /** No unlocked clause is satisfied at top level any more. */
  ghost predicate AllSatisfiedGone(T: Trail, D: Store, locked: set<Cid>) {
    forall c :: c in D.cls && c !in locked ==> !TopSatisfied(T.lev, D.cls[c])
  }

  lemma SatisfiedOk(s: State, del: set<Cid>)
    requires Invariant(s, NOTHING)
    requires del == Satisfied(s.T.lev, s.D.cls, s.locked, s.ocls) + Satisfied(s.T.lev, s.D.cls, s.locked, s.lcls)
    ensures CanCollect(s, del)
  {
    hide Invariant, TopSatisfied;
  }

  /** t is s after the unlocked clauses that are satisfied at top level, and no others, are deleted. */
  ghost predicate Simplified(s: State, t: State) {
    Collected(s, t, Satisfied(s.T.lev, s.D.cls, s.locked, s.ocls) + Satisfied(s.T.lev, s.D.cls, s.locked, s.lcls))
  }

  lemma SatisfiedGone(s: State, u: State, del: set<Cid>)
    requires Invariant(s, NOTHING) && Collected(s, u, del)
    requires del == Satisfied(s.T.lev, s.D.cls, s.locked, s.ocls) + Satisfied(s.T.lev, s.D.cls, s.locked, s.lcls)
    ensures AllSatisfiedGone(u.T, u.D, u.locked) && Simplified(s, u)
  {
    InvStacked(s);
    hide Invariant, AllTrimmed, CountersOf, Without, At, TopSatisfied;
  }

  lemma InvStacked(s: State)
    requires Invariant(s, NOTHING)
    ensures forall c :: c in s.D.cls ==> c in s.ocls || c in s.lcls
  {
    hide TrailInv, WatchInv, QueueOk, AssumptionsOk, ConflictOk, EmptyOk, FormulaOk, TallyOk;
    hide ClausesOk, ImplsOk, ListsOk, ParkedTrue, ClausesEntailed, ImplsEntailed;
  }

  lemma CountsNonNegative(s: State)
    requires Invariant(s, NOTHING)
    ensures s.k.olits >= 0 && s.k.llits >= 0 && s.k.noclauses >= 0
  {
    hide TrailInv, StoreInv, WatchInv, QueueOk, AssumptionsOk, ConflictOk, EmptyOk, FormulaOk;
    CountBounds(s.D.cls, s.locked, s.lcls);
    CountBounds(s.D.cls, s.locked, s.ocls);
  }

  lemma WentShort(s: State, u: State, k: nat)
    requires Invariant(s, NOTHING) && s.T.dl > 0 && Undone(s, u, k, 0)
    ensures |u.T.lits| < |s.T.lits|
  {
    hide Consistent, Layered, ReasonsOk, TrailSound, TopUnits, LockedBy, CountersOf;
    hide StoreInv, WatchInv, QueueOk, AssumptionsOk, ConflictOk, EmptyOk, FormulaOk, TallyOk;
    assert HasDecision(s.T, s.T.dl);
    var l :| IsDecision(s.T, l) && l in s.T.lev && s.T.lev[l] == s.T.dl;
    assert l in s.T.pos;
  }

  lemma WentTop(s: State, u: State, k: nat)
    requires Invariant(s, NOTHING) && Settled(s) && Undone(s, u, k, 0)
    ensures Settled(u) && u.T.dl == 0 && u.failed == s.failed
    ensures FixedCount(u.T.lev, u.T.lits) == FixedCount(s.T.lev, s.T.lits)
  {
    hide Invariant, CountersOf, LockedBy, FixedCount;
    forall i | 0 <= i < |s.T.lits|
      ensures s.T.lits[i] in s.T.lev && (i >= k ==> s.T.lev[s.T.lits[i]] > 0)
    {
      var l := s.T.lits[i];
      assert l in s.T.pos && s.T.pos[l] == i;
    }
    RestartedCount(s.T, u.T, k);
  }

  lemma ReduceFacts(s: State)
    requires Invariant(s, NOTHING)
    ensures s.k.nlclauses - s.k.llocked == Unlocked(s.D.cls, s.locked, s.lcls) >= 0
    ensures 0 <= s.k.llocked <= s.k.nlclauses
    ensures NoDup(s.lcls) && forall c :: c in s.ocls ==> c !in s.lcls
  {
    InvDisjoint(s);
    hide TrailInv, StoreInv, WatchInv, QueueOk, AssumptionsOk, ConflictOk, EmptyOk, FormulaOk;
    CountBounds(s.D.cls, s.locked, s.lcls);
  }

  lemma InvDisjoint(s: State)
    requires Invariant(s, NOTHING)
    ensures NoDup(s.lcls) && forall c :: c in s.ocls ==> c !in s.lcls
  {
    hide TrailInv, WatchInv, QueueOk, AssumptionsOk, ConflictOk, EmptyOk, FormulaOk, TallyOk;
    hide ClausesOk, ImplsOk, ListsOk, ParkedTrue, ClausesEntailed, ImplsEntailed;
  }

  lemma VictimsOk(s: State, del: set<Cid>)
    requires Invariant(s, NOTHING)
    requires forall c :: c in del ==> Victim(s.T.lev, s.D.cls, s.locked, s.ocls, s.lcls, c)
    ensures CanCollect(s, del)
  {
    InvStacks(s);
    hide Invariant, TopSatisfied;
  }

  lemma InvStacks(s: State)
    requires Invariant(s, NOTHING)
    ensures forall c :: c in s.D.learned <==> c in s.lcls
  {
    hide TrailInv, WatchInv, QueueOk, AssumptionsOk, ConflictOk, EmptyOk, FormulaOk, TallyOk;
    hide ClausesOk, ImplsOk, ListsOk, ParkedTrue, ClausesEntailed, ImplsEntailed;
  }

  lemma CollectedSettled(s: State, u: State, del: set<Cid>)
    requires Collected(s, u, del)
    ensures Settled(s) ==> Settled(u)
    ensures s.failed.None? && Quiescent(s) ==> Quiescent(u)
  {
    hide Purged, AllTrimmed, CountersOf;
  }

  lemma CollectedIs(s: State, u: State, del: set<Cid>)
    requires u == s.(D := u.D, ocls := Without(s.ocls, del), lcls := Without(s.lcls, del), k := u.k)
    requires Purged(s.D, u.D, del) && AllTrimmed(s.T.lev, s.D.impls, u.D.impls)
    requires u.k == CountersOf(u.D.cls, s.locked, u.ocls, u.lcls)
    ensures Collected(s, u, del)
  {
    hide Purged, AllTrimmed, CountersOf;
  }

  // ---------- failed assumptions ----------

  lemma ExplainedFacts(s: State, top: Lit, added: Clause)
    requires Invariant(s, NOTHING) && Explains(s, top, added) && !IsDecision(s.T, top)
    ensures Proper(s.T) && 0 !in added && s.T.dl > 0 && top in s.T.rsn && top in s.T.lev && s.T.lev[top] > 0
    ensures KnownVars(s.n, added) && forall l :: l in added ==> !Free(s.T, l)
    ensures AddState(s, added, true) == StoreState(s, added, true, true)
    ensures |added| >= 2 && added[0] == top && added[1] != top
  {
    hide Invariant, Entails, StoreState, AddState, IsDecision;
    hide Sound, Explains, Proper, Free;
    InvariantSound(s, NOTHING);
    InvProper(s);
    ExplainsLevel(s, top, added);
    ExplainsAssigned(s, top, added);
    AssignedKnown(s, added);
    AddStores(s, added, true);
  }

  lemma ExplainsAssigned(s: State, top: Lit, added: Clause)
    requires Proper(s.T) && 0 !in s.T.lev && Explains(s, top, added)
    ensures 0 !in added && |added| >= 2 && added[0] == top && added[1] != top && top in added && !IsFalse(s.T, top)
    ensures forall l :: l in added ==> !Free(s.T, l) && (IsTrue(s.T, l) || IsFalse(s.T, l))
  {
    hide Entails, IsDecision;
    assert added[0] in added && added[1] in added;
    forall l | l in added
      ensures l != 0 && (l in s.T.lev || -l in s.T.lev)
    {
      var i :| 0 <= i < |added| && added[i] == l;
    }
  }

  lemma ExplainsLevel(s: State, top: Lit, added: Clause)
    requires Sound(s) && Explains(s, top, added)
    ensures top in s.T.rsn && s.T.lev[top] > 0 && s.T.dl > 0
    ensures forall l :: l in s.T.pos <==> l in s.T.lev
  {
    hide ReasonsOk, TrailSound, TopUnits, LockedBy, ClausesEntailed, Entails, Consistent;
    var i :| 1 <= i < |added| && -added[i] in s.T.lev && s.T.lev[-added[i]] == s.T.lev[top];
    var d := -added[i];
    assert IsDecision(s.T, d) && d in s.T.lev;
    assert s.T.lev[d] > 0;
    assert s.T.lev[top] <= s.T.dl;
  }

  lemma StoreKeepsReason(s: State, added: Clause, top: Lit)
    requires top in s.T.rsn
    ensures StoreState(s, added, true, true).T == s.T
  {
    StoreFrame(s, added, true, true);
  }

  lemma ExplainedIs(s: State, top: Lit, added: Clause, u: State)
    requires top in s.T.rsn && |added| >= 2 && added[0] == top && added[1] != top
    requires var t := StoreState(s, added, true, true);
      var r := ForceReason(RefOf(added, s.next), top);
      u == t.(T := s.T.(rsn := s.T.rsn[top := r]), locked := t.locked - LockOf(s.T.rsn[top]) + LockOf(r),
              k := Locking(Unlocking(t.k, t.D, s.T.rsn[top]), t.D, r))
    ensures u == ExplainedState(s, top, added)
    ensures u == s.(T := u.T, D := u.D, locked := u.locked, lcls := u.lcls, next := u.next, k := u.k)
    ensures Settled(s) ==> Settled(u)
  {
    hide SortLits, Locking, Unlocking, LockOf;
    StoreFrame(s, added, true, true);
    StoredOnly(s, added);
  }

  lemma StoredOnly(s: State, added: Clause)
    requires |added| >= 2
    ensures var t := StoreState(s, added, true, true); t.ocls == s.ocls && t.mtcls == s.mtcls
  {
    hide SortLits;
  }

  method CollectNonFalse(level: map<Lit, nat>, added: Clause) returns (lits: Clause)
    ensures lits == NonFalse(level, added)
  {
    hide NonFalse;
    lits := [];
    NonFalseNone(level);
    for p := 0 to |added|
      invariant lits == NonFalse(level, added[..p])
    {
      NonFalseStep(level, added[..p], added[p]);
      assert added[..p + 1] == added[..p] + [added[p]];
      if -added[p] !in level {
        lits := lits + [added[p]];
      }
    }
    assert added[..|added|] == added;
  }

  /** No literal is true together with its negation. */
  predicate Proper(T: Trail) {
    T.lev.Keys == T.pos.Keys && forall l :: l in T.lev ==> -l !in T.lev
  }

  predicate Free(T: Trail, l: Lit) {
    l !in T.lev && -l !in T.lev
  }

  ghost predicate KnownVars(n: nat, lits: Clause) {
    forall l :: l in lits ==> 1 <= Var(l) <= n
  }

  lemma ClauseKnown(n: nat, lits: Clause)
    requires ClauseOk(n, lits)
    ensures KnownVars(n, lits)
  {
  }

  lemma AssignedKnown(s: State, lits: Clause)
    requires Invariant(s, NOTHING) && forall l :: l in lits ==> !Free(s.T, l)
    ensures KnownVars(s.n, lits)
  {
    hide Layered, Indexed, Decided, ReasonsOk, TrailSound, TopUnits, LockedBy;
    hide StoreInv, WatchInv, QueueOk, AssumptionsOk, ConflictOk, EmptyOk, FormulaOk, TallyOk;
    InvProper(s);
    assert Consistent(s.n, s.T);
    forall l | l in lits
      ensures 1 <= Var(l) <= s.n
    {
      assert l in s.T.pos || -l in s.T.pos;
    }
  }

  lemma CanForceKnown(s: State, l: Lit, r: Reason)
    requires CanForce(s, l, r)
    ensures 1 <= Var(l) <= s.n
  {
    hide Entails, ReasonOk;
  }

  function RefOf(lits: Clause, c: Cid): ClauseRef {
    if |lits| == 2 then Binary(lits[0], lits[1]) else Large(c)
  }

  lemma InvProper(s: State)
    requires Invariant(s, NOTHING)
    ensures Proper(s.T) && 0 !in s.T.lev
    ensures forall l :: l in s.T.pos <==> l in s.T.lev
  {
    hide Invariant, Layered, Indexed;
    InvParts(s);
    TrailKeys(s.T);
  }

  lemma ImplyingFacts(s: State, b: nat, w: Lit, i: nat)
    requires Implying(s, b, w, i)
    ensures b < |s.T.lits| && s.T.lits[b] == -w && -w in s.T.lev && s.T.lev[-w] == s.T.dl
  {
  }

  // ---------- growing trails ----------

  /** t is s after more literals were forced on the current level; clauses may be reordered and learned units added. */
  ghost predicate Grows(s: State, t: State) {
    && s.T.lits <= t.T.lits
    && t.T.dl == s.T.dl
    && (forall l :: l in s.T.lev ==> l in t.T.lev && t.T.lev[l] == s.T.lev[l])
    && (forall l :: l in t.T.lev && l !in s.T.lev ==> t.T.lev[l] == s.T.dl)
    && t == s.(T := t.T, D := t.D, locked := t.locked, lcls := t.lcls, next := t.next, k := t.k, conflict := t.conflict,
               wdone := t.wdone, bdone := t.bdone, ttail := t.ttail, ttail2 := t.ttail2)
  }

  lemma GrowsSelf(s: State)
    ensures Grows(s, s)
  {
  }

  lemma GrowsOn(s: State, t: State, u: State)
    requires Grows(s, t) && Grows(t, u)
    ensures Grows(s, u)
  {
  }

  lemma OneMoreGrows(s: State, t: State, l: Lit)
    requires OneMore(s, t, l) && l !in s.T.lev
    ensures Grows(s, t) && t.D.impls == s.D.impls
  {
  }

  lemma ConflictGrows(s: State, t: State)
    requires t == s.(conflict := t.conflict)
    ensures Grows(s, t)
  {
  }

  lemma StoreGrows(s: State, t: State)
    requires t == s.(D := t.D)
    ensures Grows(s, t)
  {
  }

  lemma VisitFacing(s: State, b: nat, w: Lit, keep: seq<Cid>, c: Cid, rest: seq<Cid>)
    requires Invariant(s, NOTHING) && Facing(s, b, w, keep, c, rest)
    ensures c in s.D.cls && |s.D.cls[c]| > 2 && s.D.cls[c][0] == w && s.D.cls[c][1] != w
    ensures NoDup(s.D.cls[c]) && s.D.cls[c][1] != 0
    ensures -w in s.T.pos && w != 0
  {
    hide Invariant, Visiting, Entails;
    VisitFacts(s, b, w, keep, c, rest);
    assert s.D.cls[c][1] in s.D.cls[c] && s.D.cls[c][0] in s.D.cls[c];
  }

  // ---------- backtracking ----------

  /** The trail after a conflict: the literals up to some lower level, and one more literal on that level. */
  ghost predicate Jumped(T: Trail, U: Trail, k: nat, l: Lit) {
    && U.dl < T.dl && Splits(T, k, U.dl) && l !in T.lev
    && U.lits == T.lits[..k] + [l]
    && l in U.lev && U.lev[l] == U.dl
    && forall i :: 0 <= i < k ==> T.lits[i] in T.lev && T.lits[i] in U.lev && U.lev[T.lits[i]] == T.lev[T.lits[i]]
  }

  lemma InvConflict(s: State)
    requires Invariant(s, NOTHING) && !s.conflict.NoClause?
    ensures Sound(s) && (s.conflict.Large? ==> s.conflict.c in s.D.cls)
    ensures Falsified(s.T, ConflictLits(s.conflict, s.D.cls)) && Entails(s.F, ConflictLits(s.conflict, s.D.cls))
  {
    hide TrailInv, StoreInv, WatchInv, QueueOk, AssumptionsOk, EmptyOk, Sound, Falsified, Entails;
    InvariantSound(s, NOTHING);
  }

  lemma LearnedFacts(s: State, added: Clause)
    requires Invariant(s, NOTHING) && Learned(s, added) && !s.conflict.NoClause?
    ensures Proper(s.T) && 0 !in added
    ensures KnownVars(s.n, added) && forall l :: l in added ==> -l in s.T.lev && !Free(s.T, l)
    ensures s.T.dl == 0 <==> added == []
    ensures AddState(s, added, true) == StoreState(s, added, true, true)
  {
    hide Invariant, Entails, StoreState, AddState;
    InvProper(s);
    assert 0 in added ==> -0 in s.T.lev;
    LearnedKnown(s, added);
    AddStores(s, added, true);
  }

  lemma LearnedKnown(s: State, added: Clause)
    requires Invariant(s, NOTHING) && Learned(s, added)
    ensures KnownVars(s.n, added)
  {
    hide Invariant, Entails;
    AssignedKnown(s, added);
  }

  lemma TargetFound(s: State, added: Clause, d: nat)
    requires Learned(s, added)
    requires forall l :: l in added ==> -l in s.T.lev
    requires forall l :: l in added ==> s.T.lev[-l] >= s.T.dl || s.T.lev[-l] <= d
    requires d == 0 || exists l :: l in added && s.T.lev[-l] == d < s.T.dl
    ensures Target(s.T, added, d)
    ensures added == [] ==> d == 0
  {
  }

  lemma LearnedInv(s: State, added: Clause, d: nat)
    requires Invariant(s, NOTHING) && Learned(s, added) && Target(s.T, added, d)
    requires s.T.dl == 0 <==> added == []
    requires added == [] ==> d == 0
    ensures var t := StoreState(s, added, true, true);
      Invariant(t, Widen(s, NOTHING, added)) && (d < t.T.dl || (d == t.T.dl && t.mtcls.Some?))
  {
    hide Invariant, Learned, Target, SortLits;
    LearnedStorable(s, added);
    StoreKeeps(s, NOTHING, added, true, true);
    StoreFrame(s, added, true, true);
    if added != [] {
      TargetBelow(s, added, d);
    }
  }

  lemma TopDone(s: State, u: State, k: nat)
    requires Invariant(s, NOTHING) && Learned(s, []) && s.T.dl == 0
    requires Undone(StoreState(s, [], true, true), u, k, 0)
    requires ListsOk(u.D) && ParkedTrue(u.T, u.D.dhtps)
    ensures Invariant(u, NOTHING) && u.mtcls.Some? && Synced(u) && AtRest(u) && u.T == s.T
  {
    hide Invariant, Learned, StoreState, ListsOk, ParkedTrue, LockedBy, CountersOf, Prefix, Splits;
    TopBacktrackKeeps(s, u, k);
    StoreFrame(s, [], true, true);
    UndoneNothing(s, k);
  }

  lemma SplitsWhole(T: Trail, k: nat)
    requires Indexed(T) && Splits(T, k, T.dl) && forall l :: l in T.lev ==> T.lev[l] <= T.dl
    ensures k == |T.lits|
  {
    if |T.lits| > 0 {
      var l := T.lits[|T.lits| - 1];
      assert l in T.pos && l in T.lev;
    }
  }

  lemma UndoneNothing(s: State, k: nat)
    requires Invariant(s, NOTHING) && s.T.dl == 0 && Splits(s.T, k, 0)
    ensures Prefix(s.T, k, 0) == s.T
  {
    InvLevels(s);
    InvTop(s);
    hide Invariant, Prefix, Splits;
    SplitsWhole(s.T, k);
    PrefixWhole(s.T);
  }

  lemma InvTop(s: State)
    requires Invariant(s, NOTHING)
    ensures forall l :: l in s.T.lev ==> s.T.lev[l] <= s.T.dl
  {
    hide Consistent, Decided, ReasonsOk, TrailSound, TopUnits, LockedBy;
    hide StoreInv, WatchInv, QueueOk, AssumptionsOk, ConflictOk, EmptyOk, FormulaOk, TallyOk;
  }

  lemma ForceReady(s: State, added: Clause, u: State, k: nat, d: nat)
    requires Invariant(s, NOTHING) && Learned(s, added) && s.T.dl > 0 && Target(s.T, added, d) && added != []
    requires Undone(StoreState(s, added, true, true), u, k, d)
    ensures var ref := RefOf(added, s.next);
      && (ref.Large? ==> ref.c in u.D.cls)
      && SameLits(ConflictLits(ref, u.D.cls), added)
      && (forall l :: l in added && l != added[0] ==> !Free(u.T, l))
      && ForceReason(ref, added[0]) == LearnedReason(added, s.next)
    ensures Proper(u.T) && Free(u.T, added[0]) && added[0] != 0 && added[0] in added && 1 <= Var(added[0]) <= s.n
  {
    hide Invariant, Learned, Target, Undone, StoreState, Sound, SortLits, Prefix, Indexed;
    InvariantSound(s, NOTHING);
    LearnedKnown(s, added);
    assert WentBack(s, added, u, k, d);
    WentBackFrame(s, added, u, k, d);
    StillFalse(s, added, d, k);
    InvProper(s);
    PrefixProper(s, k, d);
    SortKeeps(s.T.lev, s.T.dl, added);
    if |added| == 2 {
      assert added == [added[0], added[1]];
    }
    forall l | l in added && l != added[0]
      ensures !Free(u.T, l)
    {
      var i :| 0 <= i < |added| && added[i] == l;
    }
  }

  lemma PrefixProper(s: State, k: nat, d: nat)
    requires Sound(s) && Proper(s.T) && k <= |s.T.lits|
    ensures s.T.rsn.Keys == s.T.pos.Keys && Proper(Prefix(s.T, k, d))
  {
    hide Layered, Decided, ReasonsOk, TrailSound, TopUnits, LockedBy, ClausesEntailed;
  }

  lemma JumpDone(s: State, added: Clause, u: State, k: nat, d: nat, v: State)
    requires Invariant(s, NOTHING) && Learned(s, added) && s.T.dl > 0 && Target(s.T, added, d) && added != []
    requires Undone(StoreState(s, added, true, true), u, k, d)
    requires ListsOk(u.D) && ParkedTrue(u.T, u.D.dhtps)
    requires LearnedReason(added, s.next).Antecedent? ==> s.next in u.D.cls
    requires v == ForcedState(u, added[0], LearnedReason(added, s.next))
    ensures Invariant(v, NOTHING) && Synced(v) && Jumped(s.T, v.T, k, added[0])
    ensures v.mtcls == s.mtcls && v.conflict.NoClause?
  {
    hide Invariant, Learned, Target, Undone, StoreState, Sound, ListsOk, ParkedTrue, CanForce, Widen, Jumped, Indexed;
    InvariantSound(s, NOTHING);
    assert WentBack(s, added, u, k, d);
    BacktrackKeeps(s, added, u, k, d);
    BacktrackForces(s, added, u, k, d);
    WentBackFrame(s, added, u, k, d);
    PrefixLevel(s, k, d);
    assert v == ForceState(u, added[0], LearnedReason(added, s.next));
    TargetBelow(s, added, d);
    JumpedTrail(s, added, k, d, v.T);
    NoMtcls(s);
  }

  lemma NoMtcls(s: State)
    requires Invariant(s, NOTHING) && s.T.dl > 0
    ensures s.mtcls.None?
  {
    hide TrailInv, StoreInv, WatchInv, QueueOk, AssumptionsOk, ConflictOk;
  }

  lemma JumpedTrail(s: State, added: Clause, k: nat, d: nat, V: Trail)
    requires Sound(s) && Learned(s, added) && s.T.dl > 0 && Target(s.T, added, d) && added != [] && d < s.T.dl
    requires Splits(s.T, k, d)
    requires exists r :: V == Extend(Prefix(s.T, k, d), added[0], r)
    ensures Jumped(s.T, V, k, added[0])
  {
    hide Target, Layered, Decided, ReasonsOk, TrailSound, TopUnits, LockedBy, ClausesEntailed, Entails, ClauseOk;
    var P := Prefix(s.T, k, d);
    assert added[0] in added;
    assert -(-added[0]) !in s.T.pos;
    forall i | 0 <= i < k
      ensures s.T.lits[i] in s.T.lev && s.T.lits[i] in P.lev && P.lev[s.T.lits[i]] == s.T.lev[s.T.lits[i]]
      ensures s.T.lits[i] != added[0]
    {
      assert s.T.lits[i] in s.T.pos && s.T.pos[s.T.lits[i]] == i;
    }
  }

  function ForceReason(ref: ClauseRef, l: Lit): Reason {
    match ref
    case Binary(a, b) => Implied(if l == a then -b else -a)
    case Large(c) => Antecedent(c)
    case NoClause => Decision
  }

  lemma AssignedNotFree(T: Trail, l: Lit)
    requires l in T.lev || -l in T.lev
    ensures !Free(T, l)
  {
  }

  lemma FreeThere(T: Trail, c: Clause, p: nat, l: Lit)
    requires l in c && Free(T, l) && p <= |c|
    requires forall i :: 0 <= i < p ==> c[i] != l
    requires p == |c| || Free(T, c[p]) || (c[p] !in T.lev && -c[p] !in T.lev)
    requires forall k :: k in c && k != l ==> !Free(T, k)
    ensures p < |c| && c[p] == l
  {
    assert p < |c| ==> c[p] in c;
  }

  lemma GrowsKeeps(s: State, t: State)
    requires Grows(s, t)
    ensures t.mtcls == s.mtcls && t.n == s.n && |s.T.lits| <= |t.T.lits|
  {
  }

  lemma InvFits(s: State)
    requires Invariant(s, NOTHING)
    ensures |s.T.lits| <= s.n && s.ttail <= |s.T.lits| && s.ttail2 <= |s.T.lits|
  {
    hide StoreInv, WatchInv, AssumptionsOk, ConflictOk, EmptyOk, TrailOk, ReasonsOk, TrailSound, TopUnits, LockedBy;
    TrailFits(s.n, s.T);
  }

  lemma MarksGrow(s: State, t: State)
    requires t == s.(wdone := t.wdone, bdone := t.bdone, ttail := t.ttail, ttail2 := t.ttail2)
    ensures Grows(s, t)
  {
  }

  lemma NonFalseNone(lev: map<Lit, nat>)
    ensures NonFalse(lev, []) == []
  {
  }

  lemma {:induction false} NonFalseStep(lev: map<Lit, nat>, c: Clause, l: Lit)
    ensures NonFalse(lev, c + [l]) == NonFalse(lev, c) + (if -l in lev then [] else [l])
  {
    if c == [] {
      assert c + [l] == [l];
    } else {
      NonFalseStep(lev, c[1..], l);
      var d := c + [l];
      assert d[0] == c[0] && d[1..] == c[1..] + [l];
      assert NonFalse(lev, d) == if -c[0] in lev then NonFalse(lev, d[1..]) else [c[0]] + NonFalse(lev, d[1..]);
      hide NonFalse;
    }
  }

  /** What storing a clause leaves alone. */
  lemma StoreFacts(s: State, lits: Clause, learned: bool, connect: bool)
    ensures StoreState(s, lits, learned, connect).T == s.T
    ensures |lits| == 1 ==> s.next in StoreState(s, lits, learned, connect).D.cls
    ensures |lits| == 1 ==> |StoreState(s, lits, learned, connect).D.cls[s.next]| == 1
  {
    SortKeeps(s.T.lev, s.T.dl, lits);
  }

  lemma AddStateIs(s: State, lits: Clause, learned: bool)
    requires Proper(s.T)
    ensures var u := StoreState(s, lits, learned, true);
      var rest := NonFalse(s.T.lev, lits);
      AddState(s, lits, learned) ==
        if s.T.dl == 0 && !(forall l :: l in lits ==> -l !in s.T.lev)
        then Settle(StoreState(u, rest, true, false), rest, u.next)
        else Settle(u, lits, s.next)
  {
    hide StoreState, Settle;
  }

  lemma ProperExtend(T: Trail, l: Lit, r: Reason)
    requires Proper(T) && Free(T, l) && l != 0
    ensures Proper(Extend(T, l, r)) && l in Extend(T, l, r).lev
  {
  }

  lemma TopForceAgain(s: State, l: Lit, r: Reason)
    ensures var u := StoreState(s.(T := Extend(s.T, l, r)), [l], true, true);
      TopForceState(s, l) == u.(T := u.T.(rsn := u.T.rsn[l := Antecedent(s.next)]), locked := u.locked + {s.next})
  {
    SortKeeps(s.T.lev, s.T.dl, [l]);
    SortKeeps(Extend(s.T, l, r).lev, s.T.dl, [l]);
    assert s.T.rsn[l := r][l := Antecedent(s.next)] == s.T.rsn[l := Antecedent(s.next)];
  }

  lemma UnitWeight(s: State, l: Lit, r: Reason)
    ensures LockWeight(StoreState(s.(T := Extend(s.T, l, r)), [l], true, true).D, Antecedent(s.next)) == 0
  {
    SortKeeps(Extend(s.T, l, r).lev, s.T.dl, [l]);
  }

  lemma TrueStored(s: State, l: Lit)
    requires l in s.T.lev && Proper(s.T)
    ensures AddState(s, [l], true) == StoreState(s, [l], true, true)
    ensures l in [l] && forall k :: k in [l] ==> k == l
  {
    assert l in [l];
    AddStores(s, [l], true);
  }

  lemma ConnectAgain(D: Store, c: Cid, cl: Clause)
    ensures Connect(D.(cls := D.cls[c := cl]), c, cl, true) == Connect(D, c, cl, true)
  {
    assert D.cls[c := cl][c := cl] == D.cls[c := cl];
  }

  /** How many literals are true, unassigned and false. */
  method CountVals(level: map<Lit, nat>, lits: Clause) returns (numTrue: nat, numUndef: nat, numFalse: nat)
    requires forall l :: l in level ==> -l !in level
    ensures numTrue + numUndef + numFalse == |lits|
    ensures numTrue == 0 <==> forall l :: l in lits ==> l !in level
    ensures numUndef == 0 <==> forall l :: l in lits ==> l in level || -l in level
    ensures numFalse == 0 <==> forall l :: l in lits ==> -l !in level
  {
    numTrue, numUndef, numFalse := 0, 0, 0;
    for p := 0 to |lits|
      invariant numTrue + numUndef + numFalse == p
      invariant numTrue == 0 <==> forall i :: 0 <= i < p ==> lits[i] !in level
      invariant numUndef == 0 <==> forall i :: 0 <= i < p ==> lits[i] in level || -lits[i] in level
      invariant numFalse == 0 <==> forall i :: 0 <= i < p ==> -lits[i] !in level
    {
      var l := lits[p];
      if l in level {
        numTrue := numTrue + 1;
      } else if -l in level {
        numFalse := numFalse + 1;
      } else {
        numUndef := numUndef + 1;
      }
    }
    assert forall i :: 0 <= i < |lits| ==> lits[i] in lits;
  }

  // ---------- top-level literals ----------

  /** Literals true at top level stay true. */
  ghost predicate TopKept(T: Trail, U: Trail) {
    forall l :: l in T.lev && T.lev[l] == 0 ==> l in U.lev && U.lev[l] == 0
  }

  lemma TopKeptSelf(T: Trail)
    ensures TopKept(T, T)
  {
  }

  lemma TopKeptOn(T: Trail, U: Trail, V: Trail)
    requires TopKept(T, U) && TopKept(U, V)
    ensures TopKept(T, V)
  {
  }

  lemma GrowsTopKept(s: State, u: State)
    requires Grows(s, u)
    ensures TopKept(s.T, u.T) && forall l :: l in s.T.lev ==> l in u.T.lev
  {
  }

  lemma JumpedTopKept(s: State, U: Trail, k: nat, l: Lit)
    requires Invariant(s, NOTHING) && Jumped(s.T, U, k, l)
    ensures TopKept(s.T, U)
  {
    hide Invariant;
    InvKeys(s);
    forall x | x in s.T.lev && s.T.lev[x] == 0
      ensures x in U.lev && U.lev[x] == 0
    {
      assert x in s.T.pos && s.T.lits[s.T.pos[x]] == x;
    }
  }

  lemma UndoneTopKept(s: State, u: State, k: nat, d: nat)
    requires Undone(s, u, k, d)
    ensures TopKept(s.T, u.T)
  {
    hide CountersOf, LockedBy;
    forall x | x in s.T.lev && s.T.lev[x] == 0
      ensures x in u.T.lev && u.T.lev[x] == 0
    {
      assert x in s.T.pos;
    }
  }

  lemma DecidedTopKept(T: Trail, U: Trail, l: Lit)
    requires l !in T.lev && U.lev == T.lev[l := T.dl + 1]
    ensures TopKept(T, U)
  {
  }

  /** No propagation was left half-way, and a conflict is there only if the empty clause is. */
  ghost predicate AtRest(s: State) {
    s.wdone == s.ttail && s.bdone == s.ttail2 && (s.conflict.NoClause? || s.mtcls.Some?)
  }

  lemma SettledAtRest(s: State)
    requires Settled(s)
    ensures AtRest(s)
  {
  }

  lemma SyncedAtRest(s: State)
    requires Synced(s) && s.conflict.NoClause?
    ensures AtRest(s)
  {
  }

  lemma SyncedSame(s: State, u: State)
    requires u == s.(n := u.n, F := u.F, als := u.als)
    ensures Synced(s) ==> Synced(u)
  {
  }
}
