/** New variables and new original clauses. */
module Importing {
  import opened Cnf
  import opened Trails
  import opened Inference
  import opened Watches
  import opened States
  import opened Counting
  import opened Deciding
  import opened Quiescence
  import opened Failing
  import opened Verdicts
  import opened Storing
  import opened Adding
  import opened Originals
  import opened Progress
  import opened Searching

  // ---------- growing the problem ----------

  lemma MoreVars(s: State, x: Exempt, n: nat)
    requires Invariant(s, x) && s.n <= n
    ensures Invariant(s.(n := n), x)
  {
    hide ReasonsOk, TrailSound, TopUnits, LockedBy, Indexed, Layered, Decided;
    hide ListsOk, ParkedTrue, StacksOk, ClausesEntailed, ImplsEntailed, WatchesOk;
    hide BinsOk, Covers, CopiesOk, Falsified, Entails, IsDecision;
    var t := s.(n := n);
    assert QueueOk(t) by { KeepQueue(s, t); }
    hide QueueOk;
    assert StoreInv(t) by { MoreVarsStore(s, n); }
  }

  lemma MoreVarsStore(s: State, n: nat)
    requires StoreInv(s) && s.n <= n
    ensures StoreInv(s.(n := n))
  {
    hide ListsOk, ParkedTrue, StacksOk, ClausesEntailed, ImplsEntailed, NoDup, At;
  }

  lemma MoreFormulaStore(s: State, C: Clause)
    requires StoreInv(s)
    ensures StoreInv(s.(F := s.F + {C}))
  {
    hide ListsOk, ParkedTrue, StacksOk, ClausesOk, ImplsOk, Entails, At;
    var G := s.F + {C};
    ClausesEntailedMono(s.F, G, s.D.cls);
    hide ClausesEntailed;
    forall a, b | b in At(s.D.impls, a)
      ensures Entails(G, [a, b])
    {
      EntailsMono(s.F, G, [a, b]);
    }
  }

  /** A clause joins the original clauses before it is stored. */
  lemma MoreFormula(s: State, C: Clause)
    requires Invariant(s, NOTHING) && forall l :: l in C ==> 1 <= Var(l) <= s.n
    ensures Invariant(s.(F := s.F + {C}), Missing(C))
  {
    hide TrailOk, ReasonsOk, TrailSound, TopUnits, LockedBy, StoreInv;
    hide QueueOk, IsDecision, Entails, WatchesOk, BinsOk, CountersOf;
    var t := s.(F := s.F + {C});
    MoreFormulaStore(s, C);
    SoundMono(s.F, t.F, s.T);
    KeepQueue(s, t);
    KeepAssumptions(s, t);
    if !s.conflict.NoClause? {
      EntailsMono(s.F, t.F, ConflictLits(s.conflict, s.D.cls));
    }
    assert WatchInv(t, Missing(C)) by { MoreFormulaWatch(s, C); }
  }

  lemma MoreFormulaWatch(s: State, C: Clause)
    requires WatchInv(s, NOTHING)
    ensures WatchInv(s.(F := s.F + {C}), Missing(C))
  {
    hide WatchesOk, BinsOk, Covered, CopiesOk;
    if s.mtcls.None? {
      CopiesMore(s.F, s.T, s.D, s.F + {C}, s.T, s.D);
      forall B | B in s.F + {C} - {C}
        ensures Covered(s.T, s.D, B)
      {
        assert B in s.F - {};
      }
    }
  }

  /** A clause with a literal true at top level or with complementary literals needs no attention. */
  lemma TrivialKeeps(s: State, C: Clause)
    requires Invariant(s, NOTHING) && s.T.dl == 0 && forall l :: l in C ==> 1 <= Var(l) <= s.n
    requires Tautology(C) || TopSatisfied(s.T.lev, C)
    ensures Invariant(s.(F := s.F + {C}), NOTHING)
  {
    hide Invariant, Tautology, TopSatisfied;
    MoreFormula(s, C);
    RepairKeeps(s.(F := s.F + {C}), Missing(C));
  }

  lemma OriginalMissing(s: State, C: Clause, lits: Clause)
    requires Invariant(s, NOTHING) && ClauseOk(s.n, lits) && SameLits(lits, C)
    ensures Invariant(s.(F := s.F + {C}), Missing(C))
  {
    hide Invariant;
    MoreFormula(s, C);
  }

  lemma NewClauseKeeps(s: State, C: Clause, lits: Clause)
    requires Invariant(s, NOTHING) && s.T.dl == 0 && ClauseOk(s.n, lits) && SameLits(lits, C)
    requires forall l :: l in lits ==> l !in s.T.lev
    ensures Invariant(AddState(s.(F := s.F + {C}), lits, false), NOTHING)
  {
    hide Invariant, AddState, Entails;
    InvKeys(s);
    OriginalMissing(s, C, lits);
    EntailsMember(s.F + {C}, C);
    EntailsSame(s.F + {C}, C, lits);
    AddKeeps(s.(F := s.F + {C}), C, lits);
  }

  /** Adding a clause at top level adds at most one literal to the trail. */
  lemma AddedTrail(s: State, x: Exempt, lits: Clause)
    requires Invariant(s, x) && s.T.dl == 0
    ensures var u := AddState(s, lits, false);
      && u.T.dl == 0 && u.n == s.n && u.F == s.F && u.failed == s.failed && u.als == s.als
      && (Synced(s) ==> Synced(u))
      && s.T.lits <= u.T.lits && TopKept(s.T, u.T) && (forall l :: l in s.T.lev ==> l in u.T.lev)
      && FixedCount(s.T.lev, s.T.lits) <= FixedCount(u.T.lev, u.T.lits)
  {
    hide Invariant, StoreState, NonFalse, LockWeight, FixedCount, Weight;
    InvMaps(s, x);
    var t := StoreState(s, lits, false, true);
    var rest := NonFalse(s.T.lev, lits);
    StoreFrame(s, lits, false, true);
    StoreFrame(t, rest, true, false);
    var u := AddState(s, lits, false);
    assert forall l :: l in s.T.lev ==> l in u.T.lev && u.T.lev[l] == s.T.lev[l];
    GrownWeight(0, s.T, u.T);
  }

  lemma InvMaps(s: State, x: Exempt)
    requires Invariant(s, x)
    ensures Proper(s.T) && forall l :: l in s.T.lits ==> l in s.T.lev
  {
    hide Layered, Decided, ReasonsOk, TrailSound, TopUnits, LockedBy;
    hide StoreInv, WatchInv, QueueOk, AssumptionsOk, ConflictOk, EmptyOk, FormulaOk, TallyOk;
    forall l | l in s.T.lits
      ensures l in s.T.lev
    {
      assert l in s.T.pos;
    }
    forall l | l in s.T.lev
      ensures -l !in s.T.lev
    {
      assert l in s.T.pos;
    }
  }

  // ---------- the first state, and resetting ----------

  lemma EmptyState(s: State)
    requires s == State(0, {}, EMPTY_TRAIL, Store(map[], {}, {}, map[], map[], map[]), {}, [], [], 0, 0, 0, 0, 0,
                        NoClause, None, [], 0, 0, None, Counters(0, 0, 0, 0, 0))
    ensures Invariant(s, NOTHING) && Synced(s) && FixedCount(s.T.lev, s.T.lits) == 0
  {
    hide TrailInv, StoreInv, WatchInv, TallyOk;
    EmptyParts(s);
  }

  lemma EmptyParts(s: State)
    requires s == State(0, {}, EMPTY_TRAIL, Store(map[], {}, {}, map[], map[], map[]), {}, [], [], 0, 0, 0, 0, 0,
                        NoClause, None, [], 0, 0, None, Counters(0, 0, 0, 0, 0))
    ensures TrailInv(s) && StoreInv(s) && WatchInv(s, NOTHING) && TallyOk(s)
  {
    hide ListsOk, TrailOk, LockedBy;
    EmptyTrailOk();
    EmptyLists();
  }

  lemma EmptyTrailOk()
    ensures TrailOk(0, EMPTY_TRAIL) && LockedBy(EMPTY_TRAIL.rsn) == {}
  {
  }

  lemma EmptyLists()
    ensures ListsOk(Store(map[], {}, {}, map[], map[], map[]))
  {
  }

  lemma AnsweredSettled(s: State, r: Verdict)
    requires Answered(s, r) && s.mtcls.None?
    ensures Settled(s)
  {
  }

  lemma NoDecisions(s: State)
    requires Invariant(s, NOTHING) && s.T.dl == 0
    ensures forall l :: IsDecision(s.T, l) ==> l !in s.T.lev
  {
    hide Consistent, Indexed, ReasonsOk, TrailSound, TopUnits, LockedBy;
    hide StoreInv, WatchInv, QueueOk, AssumptionsOk, ConflictOk, EmptyOk, FormulaOk, TallyOk;
  }

  lemma ResetKeeps(s: State, t: State)
    requires Invariant(s, NOTHING) && s.T.dl == 0 && AtRest(s)
    requires t == s.(als := [], alstail := 0, adl := 0, failed := None, conflict := NoClause)
    ensures Invariant(t, NOTHING) && Synced(t)
  {
    NoDecisions(s);
    hide TrailOk, ReasonsOk, TrailSound, TopUnits, LockedBy, IsDecision;
    hide ClausesOk, ImplsOk, ListsOk, ParkedTrue, StacksOk, ClausesEntailed, ImplsEntailed, WatchesOk, BinsOk;
    hide Covers, CopiesOk;
    assert QueueOk(t) by { KeepQueue(s, t); }
    hide QueueOk;
  }

  lemma AssumeKept(s: State, l: Lit)
    requires Invariant(s, NOTHING) && s.T.dl == 0 && s.failed.None? && 1 <= Var(l) <= s.n
    ensures Invariant(s.(als := s.als + [l]), NOTHING)
  {
    hide TrailOk, ReasonsOk, TrailSound, TopUnits, LockedBy, AssumptionsOk;
    hide ClausesOk, ImplsOk, ListsOk, ParkedTrue, StacksOk, ClausesEntailed;
    hide ImplsEntailed, WatchesOk, BinsOk, Covers, CopiesOk, Falsified, Entails;
    var t := s.(als := s.als + [l]);
    KeepQueue(s, t);
    hide QueueOk;
    AssumeMore(s, l);
  }

  lemma AssumeMore(s: State, l: Lit)
    requires Invariant(s, NOTHING) && s.T.dl == 0 && s.failed.None? && 1 <= Var(l) <= s.n
    ensures AssumptionsOk(s.(als := s.als + [l]))
  {
    NoDecisions(s);
    hide TrailInv, StoreInv, WatchInv, QueueOk, ConflictOk, EmptyOk, FormulaOk, TallyOk, IsDecision;
  }

  // ---------- preparing a clause ----------

  /** Where a literal lies in the solver's array of literals. */
  function Ptr(l: Lit): nat {
    2 * Var(l) + if l < 0 then 1 else 0
  }

  ghost predicate Ascending(s: Clause) {
    forall i, j :: 0 <= i < j < |s| ==> Ptr(s[i]) <= Ptr(s[j])
  }

  /** Sorts literals by where they lie. */
  method SortPtr(s: Clause) returns (r: Clause)
    ensures Ascending(r) && multiset(r) == multiset(s)
  {
    r := [];
    for i := 0 to |s|
      invariant Ascending(r) && multiset(r) == multiset(s[..i])
    {
      assert s[..i + 1] == s[..i] + [s[i]];
      r := InsertPtr(r, s[i]);
    }
    assert s[..|s|] == s;
  }

  method InsertPtr(s: Clause, l: Lit) returns (r: Clause)
    requires Ascending(s)
    ensures Ascending(r) && multiset(r) == multiset(s) + multiset{l}
  {
    hide Ptr, Ascending;
    var k := |s|;
    while k > 0 && Ptr(s[k - 1]) > Ptr(l)
      invariant 0 <= k <= |s|
      invariant forall j :: k <= j < |s| ==> Ptr(s[j]) > Ptr(l)
    {
      k := k - 1;
    }
    r := s[..k] + [l] + s[k..];
    InsertElems(s, k, l);
    InsertAscending(s, k, l, r);
  }

  lemma InsertElems(s: Clause, k: nat, l: Lit)
    requires k <= |s|
    ensures multiset(s[..k] + [l] + s[k..]) == multiset(s) + multiset{l}
  {
    assert s == s[..k] + s[k..];
  }

  lemma InsertAscending(s: Clause, k: nat, l: Lit, r: Clause)
    requires Ascending(s) && k <= |s| && r == s[..k] + [l] + s[k..]
    requires k > 0 ==> Ptr(s[k - 1]) <= Ptr(l)
    requires forall j :: k <= j < |s| ==> Ptr(l) < Ptr(s[j])
    ensures Ascending(r)
  {
    hide Ptr;
    forall j | 0 <= j < k
      ensures Ptr(s[j]) <= Ptr(l)
    {
      assert j < k - 1 ==> Ptr(s[j]) <= Ptr(s[k - 1]);
    }
    forall i, j | 0 <= i < j < |r|
      ensures Ptr(r[i]) <= Ptr(r[j])
    {
      var x, y := if i < k then i else i - 1, if j < k then j else j - 1;
      assert i != k ==> r[i] == s[x];
      assert j != k ==> r[j] == s[y];
    }
  }

  /** r holds the literals of the sorted prefix s once each, none true at top level and no two complementary. */
  ghost predicate Prepared(level: map<Lit, nat>, s: Clause, r: Clause, prev: Lit) {
    && (forall l :: l in r <==> l in s)
    && (forall i, j :: 0 <= i < j < |r| ==> Ptr(r[i]) < Ptr(r[j]))
    && (if r == [] then prev == 0 else prev == r[|r| - 1])
    && (forall l :: l in r ==> -l !in r && !(l in level && level[l] == 0))
  }

  lemma PrepareSkip(level: map<Lit, nat>, s: Clause, r: Clause, prev: Lit, l: Lit)
    requires Prepared(level, s, r, prev) && l == prev && l != 0
    ensures Prepared(level, s + [l], r, prev)
  {
    assert r[|r| - 1] in r;
  }

  lemma PreparePush(level: map<Lit, nat>, s: Clause, r: Clause, prev: Lit, l: Lit)
    requires Prepared(level, s, r, prev) && l != prev && l != 0 && prev != -l
    requires forall k :: k in s ==> Ptr(k) <= Ptr(l)
    requires !(l in level && level[l] == 0)
    ensures Prepared(level, s + [l], r + [l], l)
  {
    var q := r + [l];
    forall i | 0 <= i < |r|
      ensures Ptr(r[i]) < Ptr(l) && r[i] != -l
    {
      assert r[i] in r && r[|r| - 1] in r;
    }
    forall k
      ensures k in q <==> k in s + [l]
    {
      assert q[|r|] == l;
    }
  }

  /** Whether a clause may be left out; otherwise its literals without repetitions. */
  method TrivialClause(level: map<Lit, nat>, added: Clause) returns (trivial: bool, lits: Clause)
    requires 0 !in added
    ensures trivial <==> TopSatisfied(level, added) || Tautology(added)
    ensures !trivial ==> SameLits(lits, added) && NoDup(lits)
  {
    hide Prepared, Ptr;
    var sorted := SortPtr(added);
    SameMembers(added, sorted);
    lits := [];
    var prev := 0;
    PrepareNone(level);
    for p := 0 to |sorted|
      invariant Prepared(level, sorted[..p], lits, prev)
    {
      var l := sorted[p];
      assert sorted[..p + 1] == sorted[..p] + [l];
      assert l in sorted;
      if prev == l {
        PrepareSkip(level, sorted[..p], lits, prev, l);
        continue;
      }
      if l in level && level[l] == 0 {
        return true, [];
      }
      if prev == -l {
        PreparedPrev(level, sorted[..p], lits, prev);
        assert prev in sorted && l in added && -l in added;
        return true, [];
      }
      PreparePush(level, sorted[..p], lits, prev, l);
      lits, prev := lits + [l], l;
    }
    assert sorted[..|sorted|] == sorted;
    trivial := false;
    PreparedDone(level, sorted, lits, prev, added);
  }

  lemma PrepareNone(level: map<Lit, nat>)
    ensures Prepared(level, [], [], 0)
  {
  }

  lemma PreparedPrev(level: map<Lit, nat>, s: Clause, r: Clause, prev: Lit)
    requires Prepared(level, s, r, prev) && prev != 0
    ensures prev in s
  {
    assert r[|r| - 1] in r;
  }

  lemma SameMembers(s: Clause, r: Clause)
    requires multiset(s) == multiset(r)
    ensures forall l :: l in s <==> l in r
  {
    forall l
      ensures l in s <==> l in r
    {
      assert l in s <==> l in multiset(s);
    }
  }

  lemma PreparedDone(level: map<Lit, nat>, s: Clause, r: Clause, prev: Lit, c: Clause)
    requires Prepared(level, s, r, prev) && forall l :: l in s <==> l in c
    ensures SameLits(r, c) && NoDup(r) && !TopSatisfied(level, c) && !Tautology(c)
  {
  }

  lemma NotTrivial(s: State, C: Clause, lits: Clause)
    requires s.T.dl == 0 && (forall l :: l in s.T.lev ==> s.T.lev[l] <= s.T.dl)
    requires !TopSatisfied(s.T.lev, C) && SameLits(lits, C) && NoDup(lits)
    requires forall l :: l in C ==> 1 <= Var(l) <= s.n
    ensures ClauseOk(s.n, lits) && 0 !in lits && forall l :: l in lits ==> l !in s.T.lev
  {
    forall l | l in lits
      ensures l !in s.T.lev
    {
      assert l in C;
    }
    assert 0 in lits ==> 1 <= Var(0);
  }

  // ---------- answers ----------

  /** a is a failed assumption; if there is no other, its negation is true at top level. */
  ghost predicate TopOrAssumed(T: Trail, als: seq<Lit>, a: Lit) {
    a in als && ((forall b :: b in als ==> b == a) ==> -a in T.lev && T.lev[-a] == 0)
  }

  lemma AnsweredFacts(s: State, r: Verdict)
    requires Invariant(s, NOTHING) && Answered(s, r)
    ensures r.Satisfiable? || r.Unknown? ==> s.mtcls.None?
    ensures r.Unsatisfiable? && s.mtcls.None? ==> exists a :: a in s.als && TopOrAssumed(s.T, s.als, a)
  {
    hide Invariant;
    if r.Unsatisfiable? && s.mtcls.None? {
      var a := s.failed.value;
      if forall b :: b in s.als ==> b == a {
        LostTopLevel(s, a);
      }
      assert a in s.als && TopOrAssumed(s.T, s.als, a);
    }
  }

  lemma DerefFacts(s: State, l: Lit)
    requires Invariant(s, NOTHING) && Answered(s, Satisfiable) && l != 0
    ensures s.mtcls.None?
    ensures Var(l) <= s.n ==> l in s.T.lev || -l in s.T.lev
    ensures l in s.T.lev ==> Holds(ModelOf(s.T), l)
    ensures -l in s.T.lev && l !in s.T.lev ==> !Holds(ModelOf(s.T), l)
  {
    hide ReasonsOk, TrailSound, TopUnits, LockedBy, Layered, Decided;
    hide StoreInv, WatchInv, QueueOk, AssumptionsOk, ConflictOk, EmptyOk, FormulaOk, TallyOk;
    FullTrail(s.n, s.T);
    var v: int := Var(l);
    assert v <= s.n ==> v in s.T.pos || -v in s.T.pos;
    assert l in s.T.lev ==> l in s.T.pos && -l !in s.T.pos;
    assert -l in s.T.lev ==> -l in s.T.pos;
  }

  lemma InvFormula(s: State)
    requires Invariant(s, NOTHING)
    ensures FormulaOk(s.n, s.F)
  {
    hide TrailInv, StoreInv, WatchInv, QueueOk, AssumptionsOk, ConflictOk, EmptyOk, FormulaOk, TallyOk;
  }

  /** The literals of a total trail, and what it is a model of. */
  lemma TotalFacts(s: State)
    requires Invariant(s, NOTHING) && Answered(s, Satisfiable)
    ensures s.mtcls.None? && Models(ModelOf(s.T), s.F) && FormulaOk(s.n, s.F)
    ensures forall v: int :: 1 <= v <= s.n ==> (v in s.T.lev <==> -v !in s.T.lev)
    ensures forall l :: 1 <= Var(l) <= s.n ==> (Holds(ModelOf(s.T), l) <==> l in s.T.lev)
  {
    hide Invariant, Answered, ModelOf, Models, FormulaOk;
    InvFormula(s);
    VerdictSound(s, Satisfiable);
    DerefFacts(s, 1);
    forall l | 1 <= Var(l) <= s.n
      ensures l in s.T.lev <==> -l !in s.T.lev
      ensures Holds(ModelOf(s.T), l) <==> l in s.T.lev
    {
      DerefFacts(s, l);
      DerefFacts(s, -l);
    }
  }

  /** Two assignments give these variables the same values. */
  ghost predicate AgreesOn(m: Model, k: Model, vars: set<nat>) {
    forall v: nat :: v in vars ==> (v in m <==> v in k)
  }

  lemma TopFacts(s: State, l: Lit)
    requires Invariant(s, NOTHING) && l != 0
    ensures l in s.T.lev && s.T.lev[l] == 0 ==> forall m: Model :: Models(m, s.F) ==> Holds(m, l)
    ensures -l in s.T.lev && s.T.lev[-l] == 0 ==> forall m: Model :: Models(m, s.F) ==> !Holds(m, l)
    ensures l in s.T.lev || -l in s.T.lev ==> Var(l) <= s.n
  {
    hide ReasonsOk, TopUnits, LockedBy, TrailSound, Models;
    hide StoreInv, WatchInv, QueueOk, AssumptionsOk, ConflictOk, EmptyOk, FormulaOk, TallyOk;
    forall m: Model | Models(m, s.F)
      ensures l in s.T.lev && s.T.lev[l] == 0 ==> Holds(m, l)
      ensures -l in s.T.lev && s.T.lev[-l] == 0 ==> Holds(m, -l)
    {
      if l in s.T.lev && s.T.lev[l] == 0 {
        HoldsTop(s.F, s.T, l, m);
      }
      if -l in s.T.lev && s.T.lev[-l] == 0 {
        HoldsTop(s.F, s.T, -l, m);
      }
    }
  }

  lemma NothingAssumed()
    ensures Assumed([]) == {}
  {
  }

  lemma CoreIs(als: seq<Lit>, vars: set<nat>, fals: seq<Lit>)
    requires forall l :: l in fals <==> l in als && Var(l) in vars
    ensures Assumed(fals) == Core(als, vars)
  {
    assert forall l :: l in Assumed(fals) <==> l in Core(als, vars);
  }

  lemma SettledClause(s: State, C: Clause)
    requires Invariant(s, NOTHING) && Settled(s) && C in s.F
    ensures exists l :: l in C && -l !in s.T.lev
  {
    hide Layered, Decided, ReasonsOk, TrailSound, TopUnits, LockedBy;
    hide ConflictOk, QueueOk, AssumptionsOk, EmptyOk, FormulaOk, TallyOk;
    hide ListsOk, ParkedTrue, ClausesEntailed, ImplsEntailed, StacksOk, ClausesOk, ImplsOk, WatchesOk, BinsOk;
    SettledParts(s);
    OriginalQuiet(s, C);
    QuietNotFalse(s.n, s.T, C);
  }

  lemma NotBoth(n: nat, T: Trail, l: Lit)
    requires Consistent(n, T) && T.lev.Keys == T.pos.Keys
    ensures l in T.pos ==> l in T.lev
    ensures l !in T.lev || -l !in T.lev
  {
    assert l in T.pos ==> -l !in T.pos;
  }

  lemma QuietNotFalse(n: nat, T: Trail, C: Clause)
    requires Quiet(T, C) && Consistent(n, T) && T.lev.Keys == T.pos.Keys
    ensures exists l :: l in C && -l !in T.lev
  {
    if l :| l in C && l in T.pos {
      NotBoth(n, T, l);
      LiteralNotFalse(T, C, l);
    } else {
      var l, k :| l in C && k in C && l != k && Unassigned(T, l) && Unassigned(T, k);
      LiteralNotFalse(T, C, l);
    }
  }

  lemma LiteralNotFalse(T: Trail, C: Clause, l: Lit)
    requires l in C && -l !in T.lev
    ensures exists l :: l in C && -l !in T.lev
  {
  }
}
