/** Inputs on which the code does not do what one might expect. */
module Witnesses {
  import opened Cnf
  import opened Trails
  import opened Inference
  import opened Watches
  import opened States
  import opened Counting
  import opened Verdicts
  import opened Searching
  import opened Subsets
  import opened Solver
  import opened Oracles
  import Autarky

  // ---------- saving clauses too late ----------

  /** Clauses are saved from the middle of the first one on, although no clause was added completely before. */
  method SaveTooLate() returns (ps: PicoSAT)
    ensures ps.Valid() && ps.F == {[1, 2]} && ps.saveorig && ps.soclauses == [2, 0] && !ps.Recorded()
  {
    hide PicoSAT.Valid, PicoSAT.Tracked, PicoSAT.Unlimited, TopKept, Autarky.SavedOk;
    ps := new PicoSAT();
    assert ps.soclauses == [] by { Unsaved(ps.soclauses, ps.added, ps.F); }
    ps.Add(1);
    ps.SaveOriginalClauses();
    ps.Add(2);
    ps.Add(0);
    assert [] + [1] + [2] == [1, 2];
    LateRecord();
  }

  lemma Unsaved(so: seq<int>, added: Clause, F: set<Clause>)
    ensures Autarky.SavedOk(false, so, added, F) ==> so == []
  {
  }

  lemma LateRecord()
    ensures !Autarky.SavedOk(true, [2, 0], [], {[1, 2]})
  {
    var so: seq<int>, cs: seq<Clause>, C: Clause := [2, 0], [[2]], [1, 2];
    assert Autarky.Ended(so) == cs by {
      Autarky.SavedPush([], 2);
      Autarky.SavedPush([2], 0);
      assert [] + [2] == [2] && [2] + [0] == so;
    }
    hide Autarky.Ended, Autarky.Open;
    assert |C| != |cs[0]| && C in {C};
  }

  // ---------- a formula without a model that is not found out ----------

  const CONTRADICTION: set<Clause> := {[-1], [2, 3], [2, -3], [-2, 3], [-2, -3]}

  /** The clauses are added in this order, 1 is assumed, and the search fails at once: 1 is false at top level. */
  const TOP_LEVEL := Trail([-1], map[-1 := 0], map[-1 := Antecedent(0)], map[-1 := 0], 0)

  const IMPLICATIONS: map<Lit, seq<Lit>> := map[2 := [3, -3], -2 := [3, -3], 3 := [2, -2], -3 := [2, -2]]

  const STORED := Store(map[0 := [-1]], {}, {0}, map[-1 := [0]], map[], IMPLICATIONS)

  const FAILED_AT_ONCE := State(3, CONTRADICTION, TOP_LEVEL, STORED, {0}, [0], [], 1, 1, 1, 1, 1,
                                NoClause, None, [1], 1, 0, Some(1), Counters(0, 0, 0, 0, 0))

  lemma NoModel(m: Model)
    ensures !Models(m, CONTRADICTION)
  {
    var c: Clause := [if 2 in m then -2 else 2, if 3 in m then -3 else 3];
    assert c in CONTRADICTION;
    assert forall l :: l in c ==> !Holds(m, l);
  }

  lemma Contradicts()
    ensures Refuted(CONTRADICTION, {}) && forall c :: Entails(CONTRADICTION, c)
  {
    forall m: Model
      ensures !Models(m, CONTRADICTION)
    {
      NoModel(m);
    }
  }

  lemma OneAssigned()
    ensures TrailOk(3, TOP_LEVEL)
  {
    assert TrailOk(3, EMPTY_TRAIL);
    ExtendOk(3, EMPTY_TRAIL, -1, Antecedent(0));
    hide TrailOk;
    assert TOP_LEVEL == Extend(EMPTY_TRAIL, -1, Antecedent(0));
  }

  lemma OneReason()
    ensures ReasonsOk(TOP_LEVEL, STORED.cls)
  {
    assert -1 in [-1];
    assert IsReason(TOP_LEVEL, -1, [-1]);
    assert ReasonOk(TOP_LEVEL, STORED.cls, -1);
  }

  lemma OneUnit()
    ensures TopUnits(TOP_LEVEL, STORED.cls)
  {
  }

  lemma OneLocked()
    ensures LockedBy(TOP_LEVEL.rsn) == {0}
  {
    assert -1 in TOP_LEVEL.rsn && TOP_LEVEL.rsn[-1] == Antecedent(0);
  }

  lemma AllSound()
    ensures TrailSound(CONTRADICTION, TOP_LEVEL) && ClausesEntailed(CONTRADICTION, STORED.cls)
    ensures ImplsEntailed(CONTRADICTION, IMPLICATIONS)
  {
    hide Refuted, Entails;
    Contradicts();
  }

  lemma FailedTrail()
    ensures TrailInv(FAILED_AT_ONCE)
  {
    hide TrailOk, ReasonsOk, TrailSound, TopUnits, LockedBy;
    OneAssigned();
    OneReason();
    OneUnit();
    OneLocked();
    AllSound();
  }

  lemma PairsAt(a: Lit, b: Lit)
    ensures b in At(IMPLICATIONS, a) <==> (Var(a) == 2 && Var(b) == 3) || (Var(a) == 3 && Var(b) == 2)
  {
  }

  lemma PairsOk()
    ensures ImplsOk(3, IMPLICATIONS)
  {
    hide At;
    forall a, b | b in At(IMPLICATIONS, a)
      ensures a != b && 1 <= Var(a) <= 3 && 1 <= Var(b) <= 3 && a in At(IMPLICATIONS, b)
    {
      PairsAt(a, b);
      PairsAt(b, a);
    }
  }

  lemma OneClause()
    ensures ClausesOk(3, STORED.cls) && ParkedTrue(TOP_LEVEL, STORED.dhtps)
    ensures StacksOk(STORED.cls, STORED.learned, [0], [], 1)
  {
  }

  lemma OneLink()
    ensures ListsOk(STORED)
  {
  }

  lemma FailedStore()
    ensures StoreInv(FAILED_AT_ONCE)
  {
    hide ClausesOk, ImplsOk, ListsOk, ParkedTrue, ClausesEntailed, ImplsEntailed, StacksOk;
    PairsOk();
    OneClause();
    OneLink();
    AllSound();
  }

  lemma FailedWatches()
    ensures WatchInv(FAILED_AT_ONCE, NOTHING)
  {
    var s := FAILED_AT_ONCE;
  }

  lemma FailedInvariant()
    ensures Invariant(FAILED_AT_ONCE, NOTHING) && Synced(FAILED_AT_ONCE)
  {
    hide TrailInv, StoreInv, WatchInv;
    FailedTrail();
    FailedStore();
    FailedWatches();
  }

  lemma FailedAnswer()
    ensures Answered(FAILED_AT_ONCE, Unsatisfiable)
  {
    var s := FAILED_AT_ONCE;
    assert 1 in s.als && -1 in s.T.lev;
  }

  /** The search answers for the assumption without finding out that there is no model at all; then the only subset that
      can be returned, the empty one, is not satisfiable with the formula. */
  lemma EmptySubset()
    ensures var s := FAILED_AT_ONCE;
      && Invariant(s, NOTHING) && Answered(s, Unsatisfiable) && s.mtcls.None?
      && Refuted(s.F, {}) && !IsMss(s.F, Assumed(s.als), {})
  {
    var s := FAILED_AT_ONCE;
    FailedInvariant();
    Contradicts();
    NoMss(s.F, Assumed(s.als), {});
    hide Invariant, Answered, Refuted, IsMss;
    FailedAnswer();
  }

  // ---------- a maximal satisfiable subset before a search ----------

  const NOT_TWO: set<Clause> := {[-2]}

  /** The assumptions 1 and 2 join the first search, which fails because of 2; 1 is passed over although it could be
      added to the empty subset that is returned. */
  method MssTooEarly() returns (mss: seq<Lit>)
    ensures mss == [] && !IsMss(NOT_TWO, {1, 2}, {}) && IsMss(NOT_TWO, {1, 2}, {1})
  {
    hide PicoSAT.Valid, PicoSAT.Tracked, TopKept, Autarky.SavedOk, Refuted, IsMss;
    var ps := new PicoSAT();
    ps.Add(-2);
    ps.Add(0);
    assert ps.F == NOT_TWO by { assert [] + [-2] == [-2]; }
    ps.Assume(1);
    ps.Assume(2);
    assert ps.als == [1, 2] && Assumed(ps.als) == {1, 2};
    NotTwo();
    if ps.mtcls.Some? {
      ps.EmptyMeans();
    }
    mss := MaximalSatisfiableSubset(ps);
    NoneTaken(mss);
  }

  lemma NotTwo()
    ensures !Refuted(NOT_TWO, {}) && !Refuted(NOT_TWO, {1}) && Refuted(NOT_TWO, {2}) && Refuted(NOT_TWO, {1, 2})
    ensures IsMss(NOT_TWO, {1, 2}, {1})
  {
    var m: Model := {1};
    assert Holds(m, -2) && -2 in [-2];
    assert Models(m, NOT_TWO) && Agrees(m, {}) && Agrees(m, {1});
    forall m: Model | Models(m, NOT_TWO)
      ensures !Holds(m, 2)
    {
      assert Satisfies(m, [-2]);
    }
    assert 2 in {2} && 2 in {1, 2};
    assert {1} + {2} == {1, 2};
    hide Refuted;
    assert IsMss(NOT_TWO, {1, 2}, {1});
  }

  lemma NoneTaken(mss: seq<Lit>)
    requires forall x :: x in mss ==> x in [1, 2][1..]
    requires IsMss(NOT_TWO, {1, 2}, Assumed(mss)) <==> 1 in mss || Refuted(NOT_TWO, Assumed(mss) + {1})
    ensures mss == [] && !IsMss(NOT_TWO, {1, 2}, {})
  {
    hide Refuted;
    NotTwo();
    assert [1, 2][1..] == [2];
    OneMember(mss, 2);
    assert {2} + {1} == {1, 2} && {} + {1} == {1};
  }

  lemma OneMember(s: seq<Lit>, l: Lit)
    requires forall x :: x in s ==> x == l
    ensures Assumed(s) == if s == [] then {} else {l}
  {
    if s != [] {
      assert s[0] in s && s[0] in Assumed(s);
      forall x | x in Assumed(s)
        ensures x == l
      {
        assert x in s;
      }
    } else {
      assert Assumed([]) == {};
    }
  }

  // ---------- fixing a redundant assumption ----------

  /** Implies that 1 is false and 2 is true. */
  const FIXING: set<Clause> := {[-1, -2], [-1, 3], [-1, -3], [2, 4], [2, -4]}

  /** The assumptions 2 and 1 fail together by the first clause. The first one is redundant; once it is fixed to false
      the formula has no model, so the other one, which is necessary, looks redundant too. */
  lemma FixedAway()
    ensures IsMus(FIXING, {1, 2}, {1}) && !IsMus(FIXING, {1, 2}, {})
    ensures Refuted(FIXING, {2, 1}) && Refuted(FIXING, {1}) && Refuted(FIXING + {[-2]}, {}) && !Refuted(FIXING, {})
  {
    FixingModel();
    forall m: Model | Models(m, FIXING)
      ensures 1 !in m && 2 in m
    {
      FixingImplies(m);
    }
    hide Models;
    forall m: Model | Models(m, FIXING)
      ensures !Agrees(m, {1})
    {
      assert !Holds(m, 1) && 1 in {1};
    }
    forall m: Model
      ensures !Models(m, FIXING + {[-2]})
    {
      FixedNot(m);
    }
    assert {1} - {1} == {};
    assert Refuted(FIXING, {1});
    RefutedMore(FIXING, {1}, {2, 1});
  }

  /** Any such run that drops 2 returns no assumption at all, which is not a minimal unsatisfiable subset. */
  method FixedRun(ps: PicoSAT) returns (mass: seq<Lit>, ghost dropped: set<Lit>)
    requires Usable(ps) && ps.state.UNSAT? && ps.F == FIXING && ps.als == [2, 1]
    modifies ps, ps.heap
    ensures mass == [] || mass == [1]
    ensures 2 in dropped ==> mass == [] && !IsMus(FIXING, {1, 2}, Assumed(mass))
  {
    hide PicoSAT.Valid, PicoSAT.Unlimited, Refuted, NeededThen, IsMus, Selecting;
    ghost var als := ps.als;
    mass, dropped := MusAssumptions(ps, true);
    OnlyOne(mass, dropped);
    FixedAway();
    assert Assumed([]) == {};
  }

  lemma OnlyOne(mass: seq<Lit>, D: set<Lit>)
    requires Assumed(mass) <= Assumed([2, 1]) && NoDup(mass)
    requires forall l :: l in mass ==> NeededThen(true, FIXING, [2, 1], Assumed(mass), D, l)
    ensures mass == [] || mass == [1]
    ensures 2 in D ==> mass == []
  {
    hide NeededThen;
    assert |mass| < 2 || mass[0] != mass[1];
    NeverNeeded(Assumed(mass), D);
    forall l | l in mass
      ensures l == 1 && 2 !in D
    {
      assert l in Assumed(mass) && l in [2, 1];
    }
    forall i | 0 <= i < |mass|
      ensures mass[i] == 1
    {
      assert mass[i] in mass;
    }
  }

  /** 2 is true in every model, so it is not needed, and nothing is needed once it is fixed to false. */
  lemma NeverNeeded(K: set<Lit>, D: set<Lit>)
    ensures !NeededThen(true, FIXING, [2, 1], K, D, 2)
    ensures 2 in D ==> !NeededThen(true, FIXING, [2, 1], K, D, 1)
  {
    hide Agrees;
    forall m: Model | Models(m, FIXING)
      ensures Holds(m, 2) && (2 in D ==> !DroppedBefore(m, [2, 1], D, 1))
    {
      FixingImplies(m);
      assert [2, 1][0] == 2 && [2, 1][1] == 1;
    }
    hide Models;
  }

  lemma FixingModel()
    ensures !Refuted(FIXING, {})
  {
    var m: Model := {2};
    assert Holds(m, -1) && Holds(m, 2);
    assert -1 in [-1, -2] && -1 in [-1, 3] && -1 in [-1, -3] && 2 in [2, 4] && 2 in [2, -4];
    assert Models(m, FIXING) && Agrees(m, {});
  }

  lemma FixingImplies(m: Model)
    requires Models(m, FIXING)
    ensures 1 !in m && 2 in m
  {
    assert Satisfies(m, [-1, 3]) && Satisfies(m, [-1, -3]) && Satisfies(m, [2, 4]) && Satisfies(m, [2, -4]);
  }

  lemma FixedNot(m: Model)
    ensures !Models(m, FIXING + {[-2]})
  {
    var G := FIXING + {[-2]};
    assert [-2] in G;
    assert FIXING <= G;
    if Models(m, FIXING) {
      FixingImplies(m);
      assert !Satisfies(m, [-2]);
    } else {
      var c :| c in FIXING && !Satisfies(m, c);
      assert c in G;
    }
  }
}
