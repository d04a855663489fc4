/** Adding a clause at top level: what it is shrunk to, what it forces, and that it is then looked after. */
module Adding {
  import opened Cnf
  import opened Trails
  import opened Inference
  import opened Watches
  import opened Sorting
  import opened States
  import opened Steps
  import opened Storing

  // ---------- putting exempted clauses right ----------

  ghost predicate Repaired(s: State, x: Exempt) {
    && (forall c :: c in x.hole && c in s.D.watched ==> c in s.D.cls && ClauseWatched(s.T, s.wdone, s.D.cls[c]))
    && (forall w, o :: (w, o) in x.holeB ==> WatchOk(s.T, s.bdone, w, o))
    && (forall C :: C in x.uncovered ==> Covered(s.T, s.D, C))
  }

  lemma RepairWatch(s: State, x: Exempt)
    requires WatchInv(s, x) && (s.mtcls.None? ==> Repaired(s, x))
    ensures WatchInv(s, NOTHING)
  {
    hide ClauseWatched, WatchOk, Covered, CopiesOk;
    if s.mtcls.None? {
      forall c | c in s.D.watched
        ensures c in s.D.cls && ClauseWatched(s.T, s.wdone, s.D.cls[c])
      {
        if c !in x.hole {
          assert c in s.D.watched - x.hole;
        }
      }
      forall C | C in s.F
        ensures Covered(s.T, s.D, C)
      {
        if C !in x.uncovered {
          assert C in s.F - x.uncovered;
        }
      }
    }
  }

  lemma RepairKeeps(s: State, x: Exempt)
    requires Invariant(s, x) && (s.mtcls.None? ==> Repaired(s, x))
    ensures Invariant(s, NOTHING)
  {
    hide TrailInv, StoreInv, WatchInv, QueueOk, AssumptionsOk, ConflictOk, EmptyOk, Repaired;
    RepairWatch(s, x);
  }

  // ---------- literals forced at top level ----------

  /** A literal forced at top level gets a learned unit clause as its reason. */
  function TopForceState(s: State, l: Lit): State {
    ForceState(StoreState(s, [l], true, true), l, Antecedent(s.next))
  }

  lemma UnitReason(s: State, l: Lit, learned: bool, connect: bool)
    requires TrailInv(s) && Unassigned(s.T, l) && s.T.dl == 0
    ensures var t := StoreState(s, [l], learned, connect);
      s.next in t.D.cls && t.D.cls[s.next] == [l] && ReasonOk(Extend(t.T, l, Antecedent(s.next)), t.D.cls, l)
  {
    SortKeeps(s.T.lev, s.T.dl, [l]);
    var t := StoreState(s, [l], learned, connect);
    assert t.D.cls[s.next] == [l];
    var U := Extend(t.T, l, Antecedent(s.next));
    assert U.lev[l] == 0;
    assert IsReason(U, l, [l]);
  }

  /** Storing a unit clause at top level and assigning its literal. */
  lemma UnitForced(s: State, x: Exempt, l: Lit, learned: bool, connect: bool)
    requires Invariant(s, x) && s.T.dl == 0 && Unassigned(s.T, l) && 1 <= Var(l) <= s.n && Entails(s.F, [l])
    requires connect || IsCopy(s.F, s.T, [l])
    ensures var t := ForceState(StoreState(s, [l], learned, connect), l, Antecedent(s.next));
      && Invariant(t, Widen(s, x, [l]))
      && s.next in t.D.cls && ClauseWatched(t.T, t.wdone, t.D.cls[s.next])
  {
    hide TrailInv, StoreInv, WatchInv, QueueOk, AssumptionsOk, ConflictOk, EmptyOk, StoreState, ReasonOk;
    hide Entails, IsCopy;
    var t := StoreState(s, [l], learned, connect);
    StoreKeeps(s, x, [l], learned, connect);
    UnitReason(s, l, learned, connect);
    UnitFrame(s, l, learned, connect);
    ForceInv(t, Widen(s, x, [l]), l, Antecedent(s.next));
  }

  lemma UnitFrame(s: State, l: Lit, learned: bool, connect: bool)
    ensures var t := StoreState(s, [l], learned, connect);
      t.T == s.T && t.n == s.n && t.F == s.F
  {
  }

  lemma TopForceInv(s: State, l: Lit)
    requires Invariant(s, NOTHING) && s.T.dl == 0 && Unassigned(s.T, l) && 1 <= Var(l) <= s.n && Entails(s.F, [l])
    ensures Invariant(TopForceState(s, l), NOTHING)
  {
    hide Invariant, ClauseWatched, StoreState, ForceState, WatchOk, Covered, Entails;
    UnitForced(s, NOTHING, l, true, true);
    RepairKeeps(TopForceState(s, l), Widen(s, NOTHING, [l]));
  }

  // ---------- adding a clause ----------

  ghost predicate IsFalse(T: Trail, l: Lit) {
    -l in T.pos
  }

  ghost predicate IsTrue(T: Trail, l: Lit) {
    l in T.pos
  }

  /** The literals of c that are not false. */
  function NonFalse(lev: map<Lit, nat>, c: Clause): Clause {
    if c == [] then []
    else if -c[0] in lev then NonFalse(lev, c[1..])
    else [c[0]] + NonFalse(lev, c[1..])
  }

  lemma {:induction false} NonFalseElems(lev: map<Lit, nat>, c: Clause)
    ensures forall l :: l in NonFalse(lev, c) <==> l in c && -l !in lev
    ensures NoDup(c) ==> NoDup(NonFalse(lev, c))
    ensures |NonFalse(lev, c)| <= |c|
  {
    if c != [] {
      NonFalseElems(lev, c[1..]);
      assert c == [c[0]] + c[1..];
      if NoDup(c) {
        assert c[0] !in c[1..] && NoDup(c[1..]);
      }
    }
  }

  /** What follows once clause c with the given literals is stored: it may force its literal or be the conflict. */
  ghost function Settle(s: State, lits: Clause, c: Cid): State {
    if |lits| == 1 && Unassigned(s.T, lits[0]) then
      ForceState(s, lits[0], Antecedent(c))
    else if (forall l :: l in lits ==> IsFalse(s.T, l)) && s.conflict.NoClause? then
      s.(conflict := if |lits| == 2 then Binary(lits[0], lits[1]) else Large(c))
    else
      s
  }

  /** At top level a clause is resolved with the false literals it has, and the shrunken clause is added too. */
  ghost function AddState(s: State, lits: Clause, learned: bool): State {
    var t := StoreState(s, lits, learned, true);
    if s.T.dl == 0 && exists l :: l in lits && IsFalse(s.T, l) then
      var rest := NonFalse(s.T.lev, lits);
      Settle(StoreState(t, rest, true, false), rest, t.next)
    else
      Settle(t, lits, s.next)
  }

  /** Nothing else happens when the clause has a true literal, or there is a conflict already and no literal is
      unassigned. */
  lemma AddStores(s: State, lits: Clause, learned: bool)
    requires s.T.dl > 0 || forall l :: l in lits ==> !IsFalse(s.T, l)
    requires forall l :: l in lits ==> IsTrue(s.T, l) || IsFalse(s.T, l)
    requires s.conflict.NoClause? ==> exists l :: l in lits && !IsFalse(s.T, l)
    ensures AddState(s, lits, learned) == StoreState(s, lits, learned, true)
  {
    assert |lits| == 1 ==> lits[0] in lits;
    assert StoreState(s, lits, learned, true).T == s.T;
  }

  lemma ShrunkEntailed(s: State, lits: Clause)
    requires TrailInv(s) && s.T.dl == 0 && Entails(s.F, lits)
    requires forall l :: l in lits ==> l != 0
    ensures Entails(s.F, NonFalse(s.T.lev, lits))
  {
    hide TrailSound, Models, Consistent, Decided, ReasonsOk, TopUnits, LockedBy;
    var rest := NonFalse(s.T.lev, lits);
    NonFalseElems(s.T.lev, lits);
    forall m: Model | Models(m, s.F)
      ensures Satisfies(m, rest)
    {
      var l :| l in lits && Holds(m, l);
      if -l in s.T.lev {
        HoldsTop(s.F, s.T, -l, m);
        assert false;
      }
      assert l in rest;
    }
  }

  lemma KeyZero(T: Trail, l: Lit)
    requires Indexed(T) && Layered(T)
    ensures Key(T.lev, T.dl, l) >= 0
    ensures Key(T.lev, T.dl, l) == 0 <==> Unassigned(T, l)
  {
  }

  /** Sorting puts two unassigned literals first if there are two. */
  lemma SortedWatches(T: Trail, c: Clause, l: Lit, k: Lit)
    requires Indexed(T) && Layered(T)
    requires l in c && k in c && l != k && Unassigned(T, l) && Unassigned(T, k)
    ensures var d := SortLits(T.lev, T.dl, c); |d| == |c| >= 2 && Unassigned(T, d[0]) && Unassigned(T, d[1])
  {
    hide Layered, Key, Indexed;
    var d := SortLits(T.lev, T.dl, c);
    SortKeeps(T.lev, T.dl, c);
    SortSorts(T.lev, T.dl, c);
    hide SortLits;
    var i :| 0 <= i < |d| && d[i] == l;
    var j :| 0 <= j < |d| && d[j] == k;
    KeyZero(T, l);
    KeyZero(T, k);
    KeyZero(T, d[0]);
    KeyZero(T, d[1]);
  }

  lemma SortedFirst(T: Trail, c: Clause, l: Lit)
    requires Indexed(T) && Layered(T) && l in c && Unassigned(T, l)
    requires forall k :: k in c && k != l ==> !Unassigned(T, k)
    ensures var d := SortLits(T.lev, T.dl, c); |d| == |c| && d[0] == l
  {
    hide Layered, Key;
    var d := SortLits(T.lev, T.dl, c);
    SortKeeps(T.lev, T.dl, c);
    SortSorts(T.lev, T.dl, c);
    hide SortLits;
    var i :| 0 <= i < |d| && d[i] == l;
    assert d[0] in c;
    KeyZero(T, d[0]);
    KeyZero(T, l);
  }
}
