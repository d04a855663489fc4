/** What complete propagation leaves: every clause, original, learned or shrunken, is true or has two unassigned
    literals. */
module Quiescence {
  import opened Cnf
  import opened Trails
  import opened Inference
  import opened Watches
  import opened States
  import opened Deciding

  /** No clause is unit or false, be it stored, binary or original. */
  ghost predicate AllQuiet(s: State) {
    && (forall c :: c in s.D.cls ==> Quiet(s.T, s.D.cls[c]))
    && (forall a, b :: b in At(s.D.impls, a) ==> Quiet(s.T, [a, b]))
    && (forall C :: C in s.F ==> Quiet(s.T, C))
  }

  /** The parts of the invariant the propagated trail is judged by. */
  ghost predicate Propagated(s: State) {
    && Indexed(s.T) && Consistent(s.n, s.T)
    && ClausesOk(s.n, s.D.cls) && ImplsOk(s.n, s.D.impls) && ListsOk(s.D) && FormulaOk(s.n, s.F)
    && WatchesOk(s.T, |s.T.lits|, s.D.cls, s.D.watched) && BinsOk(s.T, |s.T.lits|, s.D.impls, {})
    && Covers(s.F, s.T, s.D) && CopiesOk(s.F, s.T, s.D)
  }

  lemma SettledParts(s: State)
    requires Invariant(s, NOTHING) && Settled(s)
    ensures Propagated(s)
  {
    hide Layered, Decided, Indexed, Consistent, ReasonsOk, TrailSound, TopUnits, LockedBy;
    hide ConflictOk, QueueOk, AssumptionsOk, EmptyOk, FormulaOk, TallyOk;
    hide ListsOk, ParkedTrue, ClausesEntailed, ImplsEntailed, StacksOk, ClausesOk, ImplsOk, WatchesOk, BinsOk;
    hide Covers, CopiesOk;
    assert s.D.watched - {} == s.D.watched && s.F - {} == s.F;
  }

  lemma OriginalQuiet(s: State, C: Clause)
    requires Propagated(s) && C in s.F
    ensures Quiet(s.T, C)
  {
    hide ClausesOk, ImplsOk, ListsOk, WatchesOk, BinsOk, CopiesOk, Covered;
    assert 0 in C ==> Var(0) >= 1;
    CoveredQuiet(s.n, s.T, |s.T.lits|, s.D, C);
  }

  /** A watched clause, original or learned. */
  lemma WatchedQuiet(s: State, c: Cid)
    requires Propagated(s) && c in s.D.watched
    ensures c in s.D.cls && Quiet(s.T, s.D.cls[c])
  {
    hide WatchOk, LinkOk, HtpOk, DhtpOk, AllNoDup, Quiet, Covers, CopiesOk, ImplsOk, BinsOk, FormulaOk;
    assert Located(s.D, c) && ClauseWatched(s.T, |s.T.lits|, s.D.cls[c]) && ClauseOk(s.n, s.D.cls[c]);
    var cl := s.D.cls[c];
    if |cl| == 1 {
      TrueQuiet(s.T, cl, cl[0]);
    } else {
      PairQuiet(s.T, |s.T.lits|, cl[0], cl[1], cl);
    }
  }

  lemma TrueQuiet(T: Trail, C: Clause, l: Lit)
    requires l in C && l in T.pos
    ensures Quiet(T, C)
  {
  }

  /** A shrunken copy has the literals of its original that are not false at top level. */
  lemma CopyQuiet(n: nat, T: Trail, cl: Clause, C: Clause)
    requires Indexed(T) && Consistent(n, T) && ShrunkFrom(T, cl, C) && Quiet(T, C)
    ensures Quiet(T, cl)
  {
    if l :| l in C && l in T.pos {
      assert -l !in T.pos;
      assert l in cl && l in T.pos;
    } else {
      var l, k :| l in C && k in C && l != k && Unassigned(T, l) && Unassigned(T, k);
      assert l in cl && k in cl;
    }
  }

  lemma UnwatchedQuiet(s: State, c: Cid)
    requires Propagated(s) && c in s.D.cls && c !in s.D.watched
    ensures Quiet(s.T, s.D.cls[c])
  {
    assert IsCopy(s.F, s.T, s.D.cls[c]);
    hide Quiet, Propagated, ShrunkFrom;
    var C :| C in s.F && ShrunkFrom(s.T, s.D.cls[c], C);
    OriginalQuiet(s, C);
    CopyQuiet(s.n, s.T, s.D.cls[c], C) by { PropagatedTrail(s); }
  }

  lemma PropagatedTrail(s: State)
    requires Propagated(s)
    ensures Indexed(s.T) && Consistent(s.n, s.T)
  {
  }

  lemma BinaryQuiet(s: State, a: Lit, b: Lit)
    requires Propagated(s) && b in At(s.D.impls, a)
    ensures Quiet(s.T, [a, b])
  {
    hide WatchOk, ListsOk, WatchesOk, ClausesOk, Quiet, Covers, CopiesOk, FormulaOk, At;
    assert a in At(s.D.impls, b) && a != b;
    assert (a, b) !in {} && (b, a) !in {};
    assert [a, b][0] == a && [a, b][1] == b;
    PairQuiet(s.T, |s.T.lits|, a, b, [a, b]);
  }

  /** Whenever everything is propagated without a conflict, no clause is left unit or false. */
  lemma SettledQuiet(s: State)
    requires Invariant(s, NOTHING) && Settled(s)
    ensures AllQuiet(s)
  {
    SettledParts(s);
    hide Invariant, Settled, Propagated, Quiet;
    forall c | c in s.D.cls
      ensures Quiet(s.T, s.D.cls[c])
    {
      if c in s.D.watched {
        WatchedQuiet(s, c);
      } else {
        UnwatchedQuiet(s, c);
      }
    }
    forall a, b | b in At(s.D.impls, a)
      ensures Quiet(s.T, [a, b])
    {
      BinaryQuiet(s, a, b);
    }
    forall C | C in s.F
      ensures Quiet(s.T, C)
    {
      OriginalQuiet(s, C);
    }
  }

  lemma BcpQuiet(s: State)
    requires Invariant(s, NOTHING) && Synced(s) && s.conflict.NoClause? && s.mtcls.None?
    requires s.ttail == s.ttail2 == |s.T.lits|
    ensures AllQuiet(s)
  {
    hide Invariant, AllQuiet;
    SettledQuiet(s);
  }
}
