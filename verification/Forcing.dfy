/** What forcing a literal leaves unchanged, whichever reason it ends up with. */
module Forcing {
  import opened Cnf
  import opened Trails
  import opened Inference
  import opened Watches
  import opened Sorting
  import opened States
  import opened Steps
  import opened Adding
  import opened Originals

  /** At top level the literal of a longer clause gets a learned unit clause as its reason. */
  function ForcedState(s: State, l: Lit, r: Reason): State
    requires r.Antecedent? ==> r.c in s.D.cls
  {
    if s.T.dl == 0 && !(r.Antecedent? && |s.D.cls[r.c]| == 1) then TopForceState(s, l)
    else ForceState(s, l, r)
  }

  /** t is s with one more literal; at most one unit clause for it is new. */
  ghost predicate OneMore(s: State, t: State, l: Lit) {
    && t.T.lits == s.T.lits + [l]
    && t.T.lev == s.T.lev[l := s.T.dl]
    && t.T.pos == s.T.pos[l := |s.T.lits|]
    && t.T.dl == s.T.dl
    && t.D.impls == s.D.impls && t.D.dhtps == s.D.dhtps
    && (forall k :: k != l ==> At(t.D.htps, k) == At(s.D.htps, k))
    && (forall c :: c in s.D.cls ==> c in t.D.cls && t.D.cls[c] == s.D.cls[c])
    && (forall c :: c in s.D.watched ==> c in t.D.watched)
    && (forall c :: c in t.D.watched && c !in s.D.watched ==> c in t.D.cls && t.D.cls[c] == [l] && s.T.dl == 0)
    && t == s.(T := t.T, D := t.D, locked := t.locked, lcls := t.lcls, next := t.next, k := t.k)
    && (s.T.dl > 0 ==> t.D == s.D)
  }

  lemma ForcedOneMore(s: State, l: Lit, r: Reason)
    requires r.Antecedent? ==> r.c in s.D.cls
    requires s.next !in s.D.cls
    ensures OneMore(s, ForcedState(s, l, r), l)
  {
    SortKeeps(s.T.lev, s.T.dl, [l]);
  }

  lemma ForcedKeeps(s: State, l: Lit, r: Reason)
    requires Invariant(s, NOTHING) && CanForce(s, l, r)
    ensures r.Antecedent? ==> r.c in s.D.cls
    ensures Invariant(ForcedState(s, l, r), NOTHING)
    ensures OneMore(s, ForcedState(s, l, r), l)
  {
    hide Invariant, OneMore, Entails, TopForceState, ForceState, IsReason;
    InvFresh(s, NOTHING);
    ForcedOneMore(s, l, r);
    if s.T.dl == 0 {
      TopEntails(s, l, r);
      if r.Antecedent? && |s.D.cls[r.c]| == 1 {
        UnitIs(s, l, r);
        ForceInv(s, NOTHING, l, r);
      } else {
        TopForceInv(s, l);
      }
    } else {
      ForceInv(s, NOTHING, l, r);
    }
  }

  lemma UnitIs(s: State, l: Lit, r: Reason)
    requires CanForce(s, l, r) && r.Antecedent? && |s.D.cls[r.c]| == 1
    ensures s.D.cls[r.c] == [l]
  {
    assert l in s.D.cls[r.c];
  }

  lemma TopEntails(s: State, l: Lit, r: Reason)
    requires Invariant(s, NOTHING) && CanForce(s, l, r) && s.T.dl == 0
    ensures Entails(s.F, [l])
  {
    hide CanForce, ReasonsOk, TopUnits, LockedBy, TrailSound, ClausesEntailed;
    hide Consistent, Indexed, Layered, Decided, Entails;
    hide WatchInv, QueueOk, AssumptionsOk, ConflictOk, EmptyOk, ClausesOk;
    hide ImplsOk, ListsOk, StacksOk, ImplsEntailed, ParkedTrue;
    ForceEntails(s, l, r);
  }
}
