/** Unit propagation over binary clauses and over watch lists, one visited clause at a time. */
module Propagating {
  import opened Cnf
  import opened Trails
  import opened Inference
  import opened Watches
  import opened States
  import opened Steps
  import opened Originals
  import opened Forcing

  /** Propagating the literal at position b makes w false; other literals are not concerned. */
  lemma WatchAdvance(T: Trail, b: nat, w: Lit, o: Lit)
    requires Indexed(T) && b < |T.lits| && T.lits[b] != -w
    requires WatchOk(T, b, w, o)
    ensures WatchOk(T, b + 1, w, o)
  {
  }

  lemma WatchTrue(T: Trail, b: nat, w: Lit, o: Lit)
    requires Indexed(T) && Layered(T) && o in T.pos
    requires -w in T.lev ==> T.lev[-w] == T.dl
    ensures WatchOk(T, b, w, o)
  {
  }

  /** Only the propagation marks differ. */
  lemma MarksKeep(s: State, t: State)
    requires Invariant(s, NOTHING)
    requires t == s.(wdone := t.wdone, bdone := t.bdone, ttail := t.ttail, ttail2 := t.ttail2)
    requires WatchInv(t, NOTHING) && QueueOk(t)
    ensures Invariant(t, NOTHING)
  {
    hide TrailOk, ReasonsOk, TrailSound, TopUnits, LockedBy;
    hide ClausesOk, ImplsOk, ListsOk, ParkedTrue, StacksOk, ClausesEntailed, ImplsEntailed;
    hide WatchInv, QueueOk, Falsified, Entails, IsDecision;
  }

  lemma InvParts(s: State)
    requires Invariant(s, NOTHING)
    ensures TrailInv(s) && StoreInv(s) && WatchInv(s, NOTHING) && QueueOk(s)
    ensures Indexed(s.T) && Layered(s.T) && forall l :: l in s.T.pos ==> l != 0 && -l !in s.T.pos
  {
    hide Indexed, Layered, Decided, ReasonsOk, TrailSound, TopUnits, LockedBy;
    hide StoreInv, WatchInv, QueueOk, AssumptionsOk, ConflictOk, EmptyOk;
    assert 0 in s.T.pos ==> 1 <= Var(0);
  }

  lemma QueueLevel(s: State, b: nat)
    requires Invariant(s, NOTHING) && b < |s.T.lits| && (b >= s.wdone || b >= s.bdone)
    ensures s.T.lits[b] in s.T.lev && s.T.lev[s.T.lits[b]] == s.T.dl
  {
    hide Consistent, Layered, Decided, ReasonsOk, TrailSound, TopUnits, LockedBy;
    hide StoreInv, WatchInv, AssumptionsOk, ConflictOk, EmptyOk;
    var l := s.T.lits[b];
    assert l in s.T.pos && s.T.pos[l] == b;
  }

  // ---------- binary clauses ----------

  /** The implications of w from index i on were visited, where -w is the literal at position b. */
  ghost predicate Implying(s: State, b: nat, w: Lit, i: nat) {
    && b < |s.T.lits| && s.T.lits[b] == -w && -w in s.T.lev && s.T.lev[-w] == s.T.dl
    && i <= |At(s.D.impls, w)| && b + 1 == s.ttail2
    && (s.conflict.NoClause? ==> s.bdone == b && s.wdone == s.ttail)
    && (s.conflict.NoClause? ==> forall j :: i <= j < |At(s.D.impls, w)| ==>
      WatchOk(s.T, b + 1, w, At(s.D.impls, w)[j]))
  }

  lemma ImplyStart(s: State, t: State, b: nat)
    requires Invariant(s, NOTHING) && Synced(s) && s.ttail2 == b < |s.T.lits|
    requires t == s.(ttail2 := b + 1)
    ensures Invariant(t, NOTHING)
    ensures Implying(t, b, -s.T.lits[b], |At(s.D.impls, -s.T.lits[b])|)
  {
    hide Invariant, WatchOk, At;
    InvParts(s);
    assert WatchInv(t, NOTHING);
    MarksKeep(s, t);
    InvQueue(s);
    QueueLevel(s, b);
  }

  lemma InvQueue(s: State)
    requires Invariant(s, NOTHING)
    ensures QueueOk(s)
  {
    hide TrailInv, StoreInv, WatchInv, AssumptionsOk, ConflictOk, EmptyOk, QueueOk;
  }

  lemma ImplySkip(s: State, b: nat, w: Lit, i: nat)
    requires Invariant(s, NOTHING) && Implying(s, b, w, i) && i > 0
    requires At(s.D.impls, w)[i - 1] in s.T.pos
    ensures Implying(s, b, w, i - 1)
  {
    hide Invariant, TrailInv, StoreInv, QueueOk, WatchInv, WatchOk, At;
    InvParts(s);
    WatchTrue(s.T, b + 1, w, At(s.D.impls, w)[i - 1]);
  }

  lemma ImplIn(s: State, w: Lit, o: Lit)
    requires Invariant(s, NOTHING) && o in At(s.D.impls, w)
    ensures o != w && 1 <= Var(o) <= s.n && Entails(s.F, [w, o])
  {
    hide TrailInv, ListsOk, StacksOk, ClausesOk, ClausesEntailed, ParkedTrue;
    hide WatchInv, QueueOk, AssumptionsOk, ConflictOk, EmptyOk;
    hide Entails;
  }

  lemma ImplyConflict(s: State, b: nat, w: Lit, i: nat, t: State)
    requires Invariant(s, NOTHING) && Implying(s, b, w, i) && i > 0
    requires -At(s.D.impls, w)[i - 1] in s.T.pos
    requires t == s.(conflict := Binary(w, At(s.D.impls, w)[i - 1]))
    ensures Invariant(t, NOTHING) && Implying(t, b, w, i - 1)
  {
    hide TrailInv, StoreInv, WatchInv, QueueOk, AssumptionsOk, WatchOk, Entails, At;
    var o := At(s.D.impls, w)[i - 1];
    assert o in At(s.D.impls, w);
    ImplIn(s, w, o);
    InvParts(s);
    assert w in [w, o] && o in [w, o];
    RestKeeps(s, t);
    assert WatchInv(t, NOTHING) by { ConflictWatch(s, t); }
  }

  lemma ConflictWatch(s: State, t: State)
    requires WatchInv(s, NOTHING) && t == s.(conflict := t.conflict)
    ensures WatchInv(t, NOTHING)
  {
    hide WatchesOk, BinsOk, Covers, CopiesOk;
  }

  lemma PairReason(T: Trail, w: Lit, o: Lit)
    requires Indexed(T) && Unassigned(T, o) && -w in T.pos && T.lev[-w] == T.dl && o != w
    ensures IsReason(Extend(T, o, Implied(-w)), o, [w, o])
  {
    var U := Extend(T, o, Implied(-w));
    var R := [w, o];
    assert R[0] == w && R[1] == o;
    assert w in R && o in R;
    forall k | k in R && k != o
      ensures k == w
    {
    }
    assert -w in U.lev && U.lev[-w] == U.lev[o];
  }

  lemma ImplyCan(s: State, b: nat, w: Lit, o: Lit)
    requires Invariant(s, NOTHING) && o in At(s.D.impls, w) && Unassigned(s.T, o)
    requires b < |s.T.lits| && s.T.lits[b] == -w && -w in s.T.lev && s.T.lev[-w] == s.T.dl
    ensures CanForce(s, o, Implied(-w))
  {
    hide Invariant, TrailInv, StoreInv, QueueOk, WatchInv, Entails, At, Layered, IsReason, Indexed;
    ImplIn(s, w, o);
    InvParts(s);
    TrailKeys(s.T);
    assert -(-w) == w;
    PairReason(s.T, w, o);
  }

  lemma TrailKeys(T: Trail)
    requires Indexed(T)
    ensures T.lev.Keys == T.pos.Keys && T.rsn.Keys == T.pos.Keys
  {
  }

  lemma ImplyForced(s: State, b: nat, w: Lit, i: nat, t: State)
    requires Invariant(s, NOTHING) && Implying(s, b, w, i) && i > 0
    requires Unassigned(s.T, At(s.D.impls, w)[i - 1])
    requires Invariant(t, NOTHING) && OneMore(s, t, At(s.D.impls, w)[i - 1])
    ensures Implying(t, b, w, i - 1)
  {
    hide Invariant, TrailInv, StoreInv, QueueOk, WatchInv, At, Indexed, Layered;
    var o := At(s.D.impls, w)[i - 1];
    InvParts(t);
    forall j | i <= j < |At(s.D.impls, w)| && s.conflict.NoClause?
      ensures WatchOk(t.T, b + 1, w, At(s.D.impls, w)[j])
    {
      InvParts(s);
      OneMoreWatch(s, t, o, b + 1, w, At(s.D.impls, w)[j]);
    }
    WatchTrue(t.T, b + 1, w, o);
  }

  lemma OneMoreWatch(s: State, t: State, l: Lit, b: nat, w: Lit, o: Lit)
    requires Indexed(s.T) && OneMore(s, t, l) && b <= |s.T.lits| && l !in s.T.pos
    requires WatchOk(s.T, b, w, o)
    ensures WatchOk(t.T, b, w, o)
  {
  }

  lemma ImplyEnd(s: State, b: nat, w: Lit, t: State)
    requires Invariant(s, NOTHING) && Implying(s, b, w, 0)
    requires t == s.(bdone := if s.conflict.NoClause? then s.ttail2 else s.bdone)
    ensures Invariant(t, NOTHING) && Synced(t)
  {
    hide Invariant, TrailInv, StoreInv, WatchOk, At;
    if s.conflict.NoClause? {
      InvParts(s);
      forall v, o | s.mtcls.None? && o in At(s.D.impls, v)
        ensures WatchOk(s.T, b + 1, v, o)
      {
        if v == w {
          var j :| 0 <= j < |At(s.D.impls, w)| && At(s.D.impls, w)[j] == o;
        } else {
          assert (v, o) !in NOTHING.holeB;
          WatchAdvance(s.T, b, v, o);
        }
      }
      assert WatchInv(t, NOTHING);
      MarksKeep(s, t);
    }
  }
}
