/** Adding an original clause at top level keeps the invariant: the clause is looked after from then on. */
module Originals {
  import opened Cnf
  import opened Trails
  import opened Inference
  import opened Watches
  import opened Links
  import opened Sorting
  import opened States
  import opened Steps
  import opened Storing
  import opened Adding

  /** lits is the original clause C without repetitions, and no literal of it is true. */
  ghost predicate Fresh(s: State, lits: Clause, C: Clause) {
    && s.T.dl == 0
    && C in s.F
    && Storable(s, lits)
    && SameLits(lits, C)
    && forall l :: l in lits ==> l !in s.T.pos
  }

  ghost function Missing(C: Clause): Exempt {
    Exempt({}, {}, {C})
  }

  lemma StoredCovers(s: State, lits: Clause, C: Clause)
    requires SameLits(lits, C) && |lits| >= 1 && s.next !in s.D.learned
    ensures Covered(s.T, StoreState(s, lits, false, true).D, C)
  {
    var t := StoreState(s, lits, false, true);
    if |lits| == 2 {
      var a, b := lits[0], lits[1];
      assert lits == [a, b];
      hide At, PushLit;
      PushBoth(s.D.impls, a, b);
      assert b in At(t.D.impls, a) && SameLits([a, b], C);
    } else {
      hide SortLits;
      SortKeeps(s.T.lev, s.T.dl, lits);
      assert s.next in t.D.watched && s.next !in t.D.learned && s.next in t.D.cls && SameLits(t.D.cls[s.next], C);
    }
  }

  lemma FreeWatched(T: Trail, b: nat, d: Clause)
    requires |d| >= 2 && Unassigned(T, d[0]) && Unassigned(T, d[1])
    ensures ClauseWatched(T, b, d)
  {
  }

  lemma HalfWatched(T: Trail, b: nat, b2: nat, w: Lit, o: Lit)
    requires T.lev.Keys == T.pos.Keys && w in T.lev && T.lev[w] == 0 && -w !in T.pos
    ensures WatchOk(T, b, w, o) && WatchOk(T, b2, o, w)
  {
  }

  /** A new empty clause. */
  lemma EmptyKeeps(s: State, x: Exempt, learned: bool, connect: bool)
    requires Invariant(s, x) && Storable(s, [])
    ensures Invariant(Settle(StoreState(s, [], learned, connect), [], s.next), NOTHING)
  {
    hide TrailInv, StoreInv, QueueOk, AssumptionsOk, Entails, ClauseOk;
    var t := StoreState(s, [], learned, connect);
    StoreKeeps(s, x, [], learned, connect);
    SortKeeps(s.T.lev, s.T.dl, []);
    assert SortLits(s.T.lev, s.T.dl, []) == [];
    assert t.D.cls[s.next] == [];
    var u := Settle(t, [], s.next);
    assert u == t || u == t.(conflict := Large(s.next));
    assert WatchInv(u, NOTHING);
    RestKeeps(t, u);
  }

  lemma RestKeeps(s: State, t: State)
    requires t == s.(conflict := t.conflict)
    requires TrailInv(s) && StoreInv(s) && QueueOk(s) && AssumptionsOk(s) && TallyOk(s)
    ensures TrailInv(t) && StoreInv(t) && QueueOk(t) && AssumptionsOk(t) && TallyOk(t)
  {
    hide TrailOk, ReasonsOk, TrailSound, TopUnits, LockedBy;
    hide ClausesOk, ImplsOk, ListsOk, ParkedTrue, StacksOk, ClausesEntailed, ImplsEntailed;
  }

  ghost predicate AllFree(T: Trail, lits: Clause) {
    forall l :: l in lits ==> Unassigned(T, l)
  }

  /** No literal is false: a unit clause forces its literal, a longer one is watched by unassigned literals. */
  lemma AddFree(s: State, C: Clause, lits: Clause)
    requires Invariant(s, Missing(C)) && Fresh(s, lits, C) && AllFree(s.T, lits)
    ensures Invariant(Settle(StoreState(s, lits, false, true), lits, s.next), NOTHING)
  {
    hide Invariant, StoreState, ForceState, Entails, ClauseWatched, WatchOk, Covered, SameLits;
    if lits == [] {
      EmptyKeeps(s, Missing(C), false, true);
    } else if |lits| == 1 {
      assert lits == [lits[0]] && lits[0] in lits;
      AddUnit(s, C, lits[0]);
    } else {
      AddLong(s, C, lits);
    }
  }

  lemma AddUnit(s: State, C: Clause, l: Lit)
    requires Invariant(s, Missing(C)) && Fresh(s, [l], C) && Unassigned(s.T, l)
    ensures Invariant(Settle(StoreState(s, [l], false, true), [l], s.next), NOTHING)
  {
    hide Invariant, StoreState, ForceState, Entails, ClauseWatched, WatchOk, Covered, SameLits;
    var t := StoreState(s, [l], false, true);
    var u := ForceState(t, l, Antecedent(s.next));
    assert t.T == s.T && t.n == s.n by { UnitFrame(s, l, false, true); }
    assert l in [l];
    InvIndexed(s, Missing(C));
    UnitForced(s, Missing(C), l, false, true);
    StoredCovers(s, [l], C);
    ForceCovers(t, l, Antecedent(s.next), C);
    assert Repaired(u, Widen(s, Missing(C), [l]));
    RepairKeeps(u, Widen(s, Missing(C), [l]));
  }

  lemma InvIndexed(s: State, x: Exempt)
    requires Invariant(s, x)
    ensures Indexed(s.T) && Layered(s.T) && TrailInv(s) && s.next !in s.D.watched && s.next !in s.D.learned
  {
    hide Consistent, Decided, ReasonsOk, TrailSound, TopUnits, LockedBy;
    hide WatchInv, QueueOk, AssumptionsOk, ConflictOk, EmptyOk;
    FreshClause(s);
  }

  lemma ForceCovers(s: State, l: Lit, r: Reason, C: Clause)
    requires Covered(s.T, s.D, C) && Unassigned(s.T, l) && s.T.lev.Keys == s.T.pos.Keys
    ensures Covered(ForceState(s, l, r).T, ForceState(s, l, r).D, C)
  {
    hide Covered;
    CoversMore({C}, s.T, s.D, ForceState(s, l, r).T);
  }

  lemma AddLong(s: State, C: Clause, lits: Clause)
    requires Invariant(s, Missing(C)) && Fresh(s, lits, C) && AllFree(s.T, lits) && |lits| >= 2
    ensures Invariant(Settle(StoreState(s, lits, false, true), lits, s.next), NOTHING)
  {
    var t := StoreState(s, lits, false, true);
    var x := Widen(s, Missing(C), lits);
    assert Invariant(t, x) by { StoreKeeps(s, Missing(C), lits, false, true); }
    InvFresh(s, Missing(C));
    hide Invariant;
    assert lits[0] in lits && lits[1] in lits;
    assert Settle(t, lits, s.next) == t;
    assert Repaired(t, x) by { LongRepaired(s, C, lits); }
    RepairKeeps(t, x);
  }

  lemma LongRepaired(s: State, C: Clause, lits: Clause)
    requires Fresh(s, lits, C) && AllFree(s.T, lits) && |lits| >= 2 && s.next !in s.D.learned
    ensures Repaired(StoreState(s, lits, false, true), Widen(s, Missing(C), lits))
  {
    hide Covered, SortLits, Entails;
    var t := StoreState(s, lits, false, true);
    StoredCovers(s, lits, C);
    if |lits| > 2 {
      SortKeeps(s.T.lev, s.T.dl, lits);
      var d := SortLits(s.T.lev, s.T.dl, lits);
      assert d[0] in lits && d[1] in lits;
      FreeWatched(t.T, t.wdone, d);
    } else {
      assert lits[0] in lits && lits[1] in lits;
    }
  }

  // ---------- resolving false literals away ----------

  ghost predicate SomeFalse(T: Trail, lits: Clause) {
    exists l :: l in lits && IsFalse(T, l)
  }

  /** The state after adding a clause with false literals and its shrunken copy. */
  ghost function ShrunkState(s: State, lits: Clause): State {
    var t := StoreState(s, lits, false, true);
    var rest := NonFalse(s.T.lev, lits);
    Settle(StoreState(t, rest, true, false), rest, t.next)
  }

  lemma RestOk(s: State, C: Clause, lits: Clause)
    requires TrailInv(s) && Fresh(s, lits, C)
    ensures Storable(s, NonFalse(s.T.lev, lits)) && AllFree(s.T, NonFalse(s.T.lev, lits))
    ensures SomeFalse(s.T, lits) ==> |NonFalse(s.T.lev, lits)| < |lits|
  {
    hide TrailSound, Layered, Decided, ReasonsOk, TopUnits, LockedBy, Entails;
    NonFalseElems(s.T.lev, lits);
    RestNonzero(s.n, lits);
    ShrunkEntailed(s, lits);
    if SomeFalse(s.T, lits) {
      var l :| l in lits && IsFalse(s.T, l);
      FewerNonFalse(s.T.lev, lits, l);
    }
    hide NonFalse, Consistent, SomeFalse;
  }

  lemma RestNonzero(n: nat, lits: Clause)
    requires ClauseOk(n, lits)
    ensures forall l :: l in lits ==> l != 0
  {
  }

  /** Without its false literals an original clause is a shrunken copy of it. */
  lemma RestCopy(s: State, C: Clause, lits: Clause)
    requires TrailInv(s) && Fresh(s, lits, C)
    ensures IsCopy(s.F, s.T, NonFalse(s.T.lev, lits))
  {
    hide TrailSound, Consistent, Decided, ReasonsOk, TopUnits, LockedBy, Storable, NonFalse;
    NonFalseElems(s.T.lev, lits);
    assert ShrunkFrom(s.T, NonFalse(s.T.lev, lits), C);
  }

  lemma {:induction false} FewerNonFalse(lev: map<Lit, nat>, c: Clause, l: Lit)
    requires l in c && -l in lev
    ensures |NonFalse(lev, c)| < |c|
  {
    NonFalseElems(lev, c[1..]);
    if c[0] != l {
      FewerNonFalse(lev, c[1..], l);
    }
  }

  /** Storing a clause touches neither the trail nor what is left to propagate. */
  lemma StoreFrame(s: State, lits: Clause, learned: bool, connect: bool)
    ensures var t := StoreState(s, lits, learned, connect);
      t == s.(D := t.D, ocls := t.ocls, lcls := t.lcls, next := t.next, mtcls := t.mtcls, k := t.k)
    ensures !connect ==> StoreState(s, lits, learned, connect).D.watched == s.D.watched
  {
    hide SortLits;
  }

  lemma StorableAgain(s: State, t: State, rest: Clause)
    requires Storable(s, rest) && AllFree(s.T, rest) && t.T == s.T && t.n == s.n && t.F == s.F
    ensures Storable(t, rest) && AllFree(t.T, rest)
  {
  }

  /** Resolving the false literals of a new clause away keeps the invariant. */
  lemma ShrunkKeeps(s: State, C: Clause, lits: Clause)
    requires Invariant(s, Missing(C)) && Fresh(s, lits, C) && SomeFalse(s.T, lits)
    ensures Invariant(ShrunkState(s, lits), NOTHING)
  {
    hide Invariant, Entails, IsCopy, SortLits, NonFalse, StoreState, Settle, Storable, AllFree, Unassigned;
    hide SomeFalse, TrailInv;
    var t := StoreState(s, lits, false, true);
    var x := Widen(s, Missing(C), lits);
    var rest := NonFalse(s.T.lev, lits);
    StoreKeeps(s, Missing(C), lits, false, true);
    InvIndexed(s, Missing(C));
    RestOk(s, C, lits);
    StoreFrame(s, lits, false, true);
    StorableAgain(s, t, rest);
    RestCopy(s, C, lits);
    if rest == [] {
      EmptyKeeps(t, x, true, false);
    } else if |rest| == 1 {
      assert rest == [rest[0]] && rest[0] in rest;
      ShrunkUnit(s, C, lits, rest[0]);
    } else {
      ShrunkLong(s, C, lits);
    }
  }

  lemma ShrunkUnit(s: State, C: Clause, lits: Clause, l: Lit)
    requires Invariant(s, Missing(C)) && Fresh(s, lits, C) && SomeFalse(s.T, lits)
    requires NonFalse(s.T.lev, lits) == [l] && AllFree(s.T, [l]) && Storable(s, [l]) && |lits| > 1
    requires IsCopy(s.F, s.T, [l])
    ensures Invariant(ShrunkState(s, lits), NOTHING)
  {
    hide Invariant, Entails, IsCopy, SortLits, ClauseWatched, StoreState, ForceState, Fresh, SomeFalse;
    hide TrailInv, NonFalse;
    var t := StoreState(s, lits, false, true);
    FreshStorable(s, lits, C);
    var x := Widen(s, Missing(C), lits);
    var u := ForceState(StoreState(t, [l], true, false), l, Antecedent(t.next));
    StoreKeeps(s, Missing(C), lits, false, true);
    StoreFrame(s, lits, false, true);
    StoreFrame(t, [l], true, false);
    InvIndexed(s, Missing(C));
    InvFresh(t, x);
    assert l in [l];
    UnitForced(t, x, l, true, false);
    ShrunkRepaired(s, C, lits, l);
    RepairKeeps(u, Widen(t, x, [l]));
  }

  lemma FreshStorable(s: State, lits: Clause, C: Clause)
    ensures Fresh(s, lits, C) ==> Storable(s, lits) && s.T.dl == 0 && ClauseOk(s.n, lits) && SameLits(lits, C)
  {
  }

  lemma ShrunkRepaired(s: State, C: Clause, lits: Clause, l: Lit)
    requires TrailInv(s) && Fresh(s, lits, C) && SomeFalse(s.T, lits) && s.next !in s.D.learned
    requires NonFalse(s.T.lev, lits) == [l] && AllFree(s.T, [l]) && |lits| > 1
    requires var t := StoreState(s, lits, false, true); t.next !in t.D.watched && t.next !in t.D.cls
    ensures var t := StoreState(s, lits, false, true);
      Repaired(ForceState(StoreState(t, [l], true, false), l, Antecedent(t.next)),
        Widen(t, Widen(s, Missing(C), lits), [l]))
  {
    hide TrailInv, Fresh, NonFalse, SomeFalse, ClauseWatched, WatchOk, Covered, StoreState, AllFree;
    var t := StoreState(s, lits, false, true);
    var v := StoreState(t, [l], true, false);
    var u := ForceState(v, l, Antecedent(t.next));
    StoreFrame(s, lits, false, true);
    StoreFrame(t, [l], true, false);
    FreshStorable(s, lits, C);
    ShrunkCovered(s, C, lits, [l]);
    UnitFree(s, l);
    ForceCovers(v, l, Antecedent(t.next), C);
    ShrunkWatched(s, C, lits, l);
  }

  lemma UnitFree(s: State, l: Lit)
    requires TrailInv(s) && AllFree(s.T, [l])
    ensures Unassigned(s.T, l) && s.T.lev.Keys == s.T.pos.Keys
  {
    assert l in [l];
  }

  lemma ShrunkCovered(s: State, C: Clause, lits: Clause, rest: Clause)
    requires SameLits(lits, C) && |lits| >= 1 && s.next !in s.D.learned
    requires var t := StoreState(s, lits, false, true); t.next !in t.D.cls
    ensures var t := StoreState(s, lits, false, true);
      var v := StoreState(t, rest, true, false);
      Covered(v.T, v.D, C)
  {
    hide Covered, SortLits;
    var t := StoreState(s, lits, false, true);
    var v := StoreState(t, rest, true, false);
    StoreFrame(s, lits, false, true);
    StoredCovers(s, lits, C);
    UnconnectedGrow(t, rest);
    CoversGrow({C}, t.T, t.D, v.D);
  }

  lemma UnconnectedGrow(t: State, rest: Clause)
    requires t.next !in t.D.cls
    ensures var v := StoreState(t, rest, true, false);
      && v.T == t.T && v.D.watched == t.D.watched && v.D.learned <= t.D.learned + {t.next} && v.D.impls == t.D.impls
      && forall c :: c in t.D.cls ==> c in v.D.cls && v.D.cls[c] == t.D.cls[c]
  {
    hide SortLits;
  }

  lemma OnlyFree(s: State, lits: Clause, l: Lit)
    requires TrailInv(s) && NonFalse(s.T.lev, lits) == [l]
    ensures l in lits && forall k :: k in lits && k != l ==> -k in s.T.pos
  {
    hide Consistent, Layered, Decided, ReasonsOk, TrailSound, TopUnits, LockedBy;
    NonFalseElems(s.T.lev, lits);
    assert l in NonFalse(s.T.lev, lits);
  }

  lemma ShrunkWatched(s: State, C: Clause, lits: Clause, l: Lit)
    requires TrailInv(s) && s.T.dl == 0 && |lits| > 1 && ClauseOk(s.n, lits)
    requires NonFalse(s.T.lev, lits) == [l] && Unassigned(s.T, l)
    ensures var t := StoreState(s, lits, false, true);
      var u := ForceState(StoreState(t, [l], true, false), l, Antecedent(t.next));
      && (|lits| != 2 ==> s.next in u.D.cls && ClauseWatched(u.T, u.wdone, u.D.cls[s.next]))
      && (|lits| == 2 ==> WatchOk(u.T, u.bdone, lits[0], lits[1]) && WatchOk(u.T, u.bdone, lits[1], lits[0]))
  {
    hide TrailInv, NonFalse, SortLits, WatchOk, StoreState;
    var t := StoreState(s, lits, false, true);
    var u := ForceState(StoreState(t, [l], true, false), l, Antecedent(t.next));
    StoreFrame(s, lits, false, true);
    StoreFrame(t, [l], true, false);
    OnlyFree(s, lits, l);
    ShrunkTrail(s, l, Antecedent(t.next));
    if |lits| == 2 {
      assert lits[0] in lits && lits[1] in lits;
      var o := if lits[0] == l then lits[1] else lits[0];
      HalfWatched(u.T, u.bdone, u.bdone, l, o);
    } else {
      var d := SortLits(s.T.lev, s.T.dl, lits);
      ShrunkSorted(s, lits, l);
      ShrunkClause(s, lits, l);
      HalfWatched(u.T, u.wdone, u.wdone, l, d[1]);
    }
  }

  lemma ShrunkClause(s: State, lits: Clause, l: Lit)
    requires |lits| != 2
    ensures var t := StoreState(s, lits, false, true);
      var v := StoreState(t, [l], true, false);
      s.next in v.D.cls && v.D.cls[s.next] == SortLits(s.T.lev, s.T.dl, lits)
  {
    hide SortLits, Connect;
    var t := StoreState(s, lits, false, true);
    ConnectClauses(Tag(s.D, s.next, false), s.next, SortLits(s.T.lev, s.T.dl, lits), true);
    ConnectClauses(Tag(t.D, t.next, true), t.next, SortLits(t.T.lev, t.T.dl, [l]), false);
  }

  lemma ConnectClauses(D: Store, c: Cid, cl: Clause, connect: bool)
    ensures Connect(D, c, cl, connect).cls == D.cls[c := cl]
  {
  }

  lemma ShrunkTrail(s: State, l: Lit, r: Reason)
    requires TrailInv(s) && s.T.dl == 0 && Unassigned(s.T, l)
    ensures var T := Extend(s.T, l, r);
      T.lev.Keys == T.pos.Keys && l in T.lev && T.lev[l] == 0 && (l != 0 ==> -l !in T.pos)
  {
  }

  lemma ShrunkSorted(s: State, lits: Clause, l: Lit)
    requires TrailInv(s) && l in lits && Unassigned(s.T, l)
    requires forall k :: k in lits && k != l ==> -k in s.T.pos
    ensures var d := SortLits(s.T.lev, s.T.dl, lits); |d| == |lits| && d[0] == l
  {
    SortedFirst(s.T, lits, l);
  }

  lemma ShrunkLong(s: State, C: Clause, lits: Clause)
    requires Invariant(s, Missing(C)) && Fresh(s, lits, C) && SomeFalse(s.T, lits)
    requires |NonFalse(s.T.lev, lits)| >= 2 && |NonFalse(s.T.lev, lits)| < |lits|
    requires AllFree(s.T, NonFalse(s.T.lev, lits)) && Storable(s, NonFalse(s.T.lev, lits))
    requires IsCopy(s.F, s.T, NonFalse(s.T.lev, lits))
    ensures Invariant(ShrunkState(s, lits), NOTHING)
  {
    hide Invariant, Entails, IsCopy, SortLits, NonFalse, StoreState, Fresh, SomeFalse, TrailInv, Repaired;
    var t := StoreState(s, lits, false, true);
    var x := Widen(s, Missing(C), lits);
    var rest := NonFalse(s.T.lev, lits);
    var v := StoreState(t, rest, true, false);
    FreshStorable(s, lits, C);
    InvIndexed(s, Missing(C));
    StoreKeeps(s, Missing(C), lits, false, true);
    StoreFrame(s, lits, false, true);
    StoreFrame(t, rest, true, false);
    StoreKeeps(t, x, rest, true, false);
    LongSettles(v, rest, t.next);
    InvFresh(t, x);
    ShrunkLongRepaired(s, C, lits);
    RepairKeeps(v, Widen(t, x, rest));
  }

  lemma LongSettles(v: State, rest: Clause, c: Cid)
    requires |rest| >= 2 && AllFree(v.T, rest)
    ensures Settle(v, rest, c) == v
  {
    assert rest[0] in rest && !IsFalse(v.T, rest[0]);
  }

  lemma InvFresh(s: State, x: Exempt)
    requires Invariant(s, x)
    ensures s.next !in s.D.watched && s.next !in s.D.cls && s.next !in s.D.learned
  {
    hide TrailInv, WatchInv, QueueOk, AssumptionsOk, ConflictOk, EmptyOk;
    FreshClause(s);
  }

  lemma ShrunkLongRepaired(s: State, C: Clause, lits: Clause)
    requires TrailInv(s) && Fresh(s, lits, C) && s.next !in s.D.learned
    requires |NonFalse(s.T.lev, lits)| >= 2 && |NonFalse(s.T.lev, lits)| < |lits|
    requires AllFree(s.T, NonFalse(s.T.lev, lits))
    requires var t := StoreState(s, lits, false, true); t.next !in t.D.watched && t.next !in t.D.cls
    ensures var t := StoreState(s, lits, false, true);
      var rest := NonFalse(s.T.lev, lits);
      Repaired(StoreState(t, rest, true, false), Widen(t, Widen(s, Missing(C), lits), rest))
  {
    hide TrailInv, Entails, SortLits, NonFalse, Covered, ClauseWatched;
    var t := StoreState(s, lits, false, true);
    var rest := NonFalse(s.T.lev, lits);
    var v := StoreState(t, rest, true, false);
    assert rest[0] in rest && rest[1] in rest;
    StoreFrame(t, rest, true, false);
    UnconnectedGrow(t, rest);
    ShrunkCovered(s, C, lits, rest);
    ShrunkLongSorted(s, lits);
    FreeWatched(v.T, v.wdone, SortLits(s.T.lev, s.T.dl, lits));
  }

  lemma ShrunkLongSorted(s: State, lits: Clause)
    requires TrailInv(s) && NoDup(lits) && AllFree(s.T, NonFalse(s.T.lev, lits))
    requires |NonFalse(s.T.lev, lits)| >= 2
    ensures var d := SortLits(s.T.lev, s.T.dl, lits); |d| >= 2 && Unassigned(s.T, d[0]) && Unassigned(s.T, d[1])
  {
    hide Consistent, Decided, ReasonsOk, TrailSound, TopUnits, LockedBy, SortLits;
    var rest := NonFalse(s.T.lev, lits);
    NonFalseElems(s.T.lev, lits);
    hide NonFalse;
    assert rest[0] in rest && rest[1] in rest;
    SortedWatches(s.T, lits, rest[0], rest[1]);
  }

  /** Adding an original clause at top level. */
  lemma AddKeeps(s: State, C: Clause, lits: Clause)
    requires Invariant(s, Missing(C)) && Fresh(s, lits, C)
    ensures Invariant(AddState(s, lits, false), NOTHING)
  {
    hide Invariant, StoreState, Settle, Storable;
    InvIndexed(s, Missing(C));
    if SomeFalse(s.T, lits) {
      ShrunkKeeps(s, C, lits);
    } else {
      assert AllFree(s.T, lits);
      AddFree(s, C, lits);
    }
  }
}
