/** What the two answers of the search mean. */
module Verdicts {
  import opened Cnf
  import opened Trails
  import opened Inference
  import opened Watches
  import opened States
  import opened Deciding
  import opened Quiescence
  import opened Failing
  import opened Analysis
  import opened Minimizing
  import opened Backtracking

  /** All variables are assigned. */
  ghost predicate Total(n: nat, T: Trail) {
    forall v: int :: 1 <= v <= n ==> v in T.pos || -v in T.pos
  }

  /** A trail with as many literals as there are variables assigns every variable. */
  lemma FullTrail(n: nat, T: Trail)
    requires TrailOk(n, T) && |T.lits| == n
    ensures Total(n, T)
  {
    hide Layered, Decided;
    forall v: int | 1 <= v <= n
      ensures v in T.pos || -v in T.pos
    {
      if Unassigned(T, v) {
        IndexedExtend(n, T, v, Decision);
        IndexedFits(n, Extend(T, v, Decision));
        assert false;
      }
    }
  }

  /** The model a total trail stands for. */
  ghost function ModelOf(T: Trail): Model {
    set l | l in T.pos && l > 0
  }

  lemma TrueHolds(n: nat, T: Trail, l: Lit)
    requires Consistent(n, T) && l in T.pos
    ensures Holds(ModelOf(T), l)
  {
  }

  lemma FullQuiet(n: nat, T: Trail, C: Clause)
    requires Consistent(n, T) && Total(n, T) && Quiet(T, C)
    requires forall l :: l in C ==> 1 <= Var(l) <= n
    ensures Satisfies(ModelOf(T), C)
  {
    forall l | l in C
      ensures !Unassigned(T, l)
    {
      var v: int := Var(l);
      assert v in T.pos || -v in T.pos;
    }
    var l :| l in C && l in T.pos;
    TrueHolds(n, T, l);
  }

  lemma TautologyHolds(m: Model, C: Clause)
    requires Tautology(C) && 0 !in C
    ensures Satisfies(m, C)
  {
    var l :| l in C && -l in C;
    assert Holds(m, l) || Holds(m, -l);
  }

  /** Nothing is left to propagate and every assumption and variable is assigned: the trail is a model. */
  lemma SatisfiedModel(s: State)
    requires Invariant(s, NOTHING) && Quiescent(s)
    requires s.alstail == |s.als| && |s.T.lits| == s.n
    ensures Models(ModelOf(s.T), s.F)
    ensures Agrees(ModelOf(s.T), set a | a in s.als)
    ensures forall v :: v in ModelOf(s.T) ==> 1 <= v <= s.n
  {
    hide Layered, Decided, ReasonsOk, TrailSound, TopUnits, LockedBy, ConflictOk, QueueOk;
    hide ListsOk, ParkedTrue, ClausesEntailed, ImplsEntailed, StacksOk, ClausesOk, ImplsOk, WatchesOk, BinsOk;
    FullTrail(s.n, s.T);
    SettledParts(s);
    hide Propagated;
    var m := ModelOf(s.T);
    forall C | C in s.F
      ensures Satisfies(m, C)
    {
      OriginalQuiet(s, C);
      FullQuiet(s.n, s.T, C);
    }
    forall a | a in s.als
      ensures Holds(m, a)
    {
      var i :| 0 <= i < |s.als| && s.als[i] == a;
      assert s.als[i] in s.T.lev;
      TrueHolds(s.n, s.T, a);
    }
  }

  /** The empty clause was derived: the formula has no model. */
  lemma EmptyRefutes(s: State)
    requires Invariant(s, NOTHING) && s.mtcls.Some?
    ensures Refuted(s.F, {})
  {
    hide TrailInv, ImplsOk, ListsOk, ParkedTrue, ClausesOk, ImplsEntailed;
    hide StacksOk, WatchInv, QueueOk, AssumptionsOk, ConflictOk, FormulaOk;
    hide Models;
    assert Entails(s.F, s.D.cls[s.mtcls.value]);
    EntailsIffRefuted(s.F, []);
    assert Negations([]) == {};
  }

  /** As long as variables are left, some literal is unassigned. */
  lemma FreeExists(n: nat, T: Trail)
    requires Indexed(T) && |T.lits| < n
    ensures exists v: nat :: 1 <= v <= n && Undef(T.lev, v)
  {
    if forall v: nat :: 1 <= v <= n ==> !Undef(T.lev, v) {
      var s: seq<nat> := seq(n, i requires 0 <= i < n =>
        1 + (if i + 1 in T.pos then T.pos[i + 1] else if -(i + 1) in T.pos then T.pos[-(i + 1)] else 0));
      forall i | 0 <= i < n
        ensures i + 1 in T.pos || -(i + 1) in T.pos
        ensures 1 <= s[i] <= |T.lits| && (T.lits[s[i] - 1] == i + 1 || T.lits[s[i] - 1] == -(i + 1))
      {
        var v: nat := i + 1;
        assert 1 <= v <= n;
        assert !Undef(T.lev, v);
      }
      DistinctBelow(|T.lits|, s);
    }
  }

  /** All true literals follow from the decisions. */
  lemma DecisionsImply(s: State, m: Model, l: Lit)
    requires Sound(s) && l in s.T.pos
    requires Models(m, s.F) && Agrees(m, Decisions(s.T, s.T.pos.Keys))
    ensures Holds(m, l)
  {
    hide Sound, Models, Agrees;
    SoundBase(s);
    var M, B := s.T.pos.Keys, Decisions(s.T, s.T.pos.Keys);
    forall k | k in M
      ensures k in B || Supported(s.T, s.D.cls, M, k)
    {
      KnownSupported(s, k);
    }
    ClosedHolds(s.F, s.T, s.D.cls, M, B, m, l);
  }

  lemma KnownSupported(s: State, k: Lit)
    requires Sound(s) && k in s.T.pos
    ensures IsDecision(s.T, k) || Supported(s.T, s.D.cls, s.T.pos.Keys, k)
  {
    hide ClausesEntailed, TrailSound, LockedBy, TopUnits, Decided, Layered, Consistent, IsReason;
    if !IsDecision(s.T, k) {
      ReasonEntailed(s.F, s.T, s.D.cls, k);
      ReasonTrue(s.T, k, ReasonLits(s.T.rsn, s.D.cls, k));
    }
  }

  lemma ReasonTrue(T: Trail, k: Lit, R: Clause)
    requires IsReason(T, k, R)
    ensures forall l :: l in R && l != k ==> -l in T.pos
  {
  }

  /** A failed assumption: no model of the formula makes all assumptions true. */
  lemma LostRefutes(s: State, failed: Lit)
    requires Invariant(s, NOTHING) && Lost(s, failed)
    ensures Refuted(s.F, set a | a in s.als)
  {
    hide Invariant, Models, Agrees, Sound;
    InvariantSound(s, NOTHING);
    SoundFacts(s);
    var A := set a | a in s.als;
    forall m: Model | Models(m, s.F)
      ensures !Agrees(m, A)
    {
      if Agrees(m, A) {
        LostAgrees(s, failed, m);
        DecisionsImply(s, m, -failed);
        assert false;
      }
    }
  }

  lemma LostAgrees(s: State, failed: Lit, m: Model)
    requires Lost(s, failed) && s.T.lev.Keys == s.T.pos.Keys && Agrees(m, set a | a in s.als)
    ensures Agrees(m, Decisions(s.T, s.T.pos.Keys)) && Holds(m, failed)
  {
    forall d | d in Decisions(s.T, s.T.pos.Keys)
      ensures Holds(m, d)
    {
      assert d in s.T.lev && d in s.als;
    }
  }

  /** With a single assumption, its negation is then true at top level. */
  lemma LostTopLevel(s: State, failed: Lit)
    requires Invariant(s, NOTHING) && Lost(s, failed) && forall a :: a in s.als ==> a == failed
    ensures s.T.dl == 0 && s.T.lev[-failed] == 0
  {
    hide ReasonsOk, TrailSound, TopUnits, LockedBy, StoreInv, WatchInv;
    hide QueueOk, AssumptionsOk, ConflictOk, EmptyOk, FormulaOk, TallyOk;
    assert s.T.dl > 0 ==> HasDecision(s.T, s.T.dl);
    assert -failed in s.T.pos ==> -(-failed) !in s.T.pos;
    assert s.T.lev[-failed] <= s.T.dl;
  }

  datatype Verdict = Satisfiable | Unsatisfiable | Unknown

  /** The state in which the search ends with a verdict. */
  ghost predicate Answered(s: State, r: Verdict) {
    match r
    case Satisfiable => Quiescent(s) && s.alstail == |s.als| && |s.T.lits| == s.n
    case Unsatisfiable => (s.mtcls.Some? && s.failed.None?) || (s.failed.Some? && Settled(s) && Lost(s, s.failed.value))
    case Unknown => Quiescent(s)
  }

  function Assumed(als: seq<Lit>): set<Lit> {
    set a | a in als
  }

  /** Satisfiable: the trail is a model of the formula and the assumptions. Unsatisfiable: there is none. */
  lemma VerdictSound(s: State, r: Verdict)
    requires Invariant(s, NOTHING) && Answered(s, r)
    ensures r.Satisfiable? ==> Models(ModelOf(s.T), s.F) && Agrees(ModelOf(s.T), Assumed(s.als))
    ensures r.Unsatisfiable? ==> Refuted(s.F, Assumed(s.als))
    ensures r.Unsatisfiable? && s.failed.None? ==> Refuted(s.F, {})
  {
    hide Invariant, Models, Agrees, Refuted, Lost, ModelOf, Settled;
    if r.Satisfiable? {
      SatisfiedModel(s);
    } else if r.Unsatisfiable? {
      if s.failed.Some? {
        LostRefutes(s, s.failed.value);
      } else {
        EmptyRefutes(s);
        RefutedMore(s.F, {}, Assumed(s.als));
      }
    }
  }
}
