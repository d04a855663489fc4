/** After a conflict: the learned clause is stored, the search goes back, and the clause forces its first literal. */
module Backtracking {
  import opened Cnf
  import opened Trails
  import opened Inference
  import opened Watches
  import opened Sorting
  import opened States
  import opened Steps
  import opened Storing
  import opened Undoing
  import opened Adding
  import opened Originals
  import opened Analysis
  import opened Minimizing

  /** d is the highest level below the current one in the learned clause. */
  ghost predicate Target(T: Trail, added: Clause, d: nat) {
    && (forall l :: l in added && -l in T.lev ==> T.lev[-l] >= T.dl || T.lev[-l] <= d)
    && (d == 0 || exists l :: l in added && -l in T.lev && T.lev[-l] == d < T.dl)
  }

  /** The reason with which the learned clause, stored under index c, forces its first literal. */
  function LearnedReason(added: Clause, c: Cid): Reason {
    if |added| == 2 then Implied(-added[1]) else Antecedent(c)
  }

  lemma TargetBelow(s: State, added: Clause, d: nat)
    requires Learned(s, added) && s.T.dl > 0 && Target(s.T, added, d)
    ensures d < s.T.dl
    ensures d == 0 <==> |added| == 1
    ensures forall i :: 1 <= i < |added| ==> -added[i] in s.T.lev && s.T.lev[-added[i]] <= d
    ensures d > 0 ==> exists i :: 1 <= i < |added| && -added[i] in s.T.lev && s.T.lev[-added[i]] == d
  {
    hide Entails, ClauseOk;
    forall i | 1 <= i < |added|
      ensures -added[i] in s.T.lev && 0 < s.T.lev[-added[i]] <= d
    {
      var l := added[i];
      assert l in added;
    }
    if d > 0 {
      var l :| l in added && -l in s.T.lev && s.T.lev[-l] == d < s.T.dl;
      var i :| 0 <= i < |added| && added[i] == l;
      assert i >= 1 && s.T.lev[-added[i]] == d;
    }
    if |added| > 1 {
      assert -added[1] in s.T.lev && s.T.lev[-added[1]] > 0;
    }
  }

  /** Of a clause with one least literal, sorting keeps that literal first and puts a least of the others second. */
  lemma LeastFirst(lev: map<Lit, nat>, dl: nat, s: Clause, e: nat, c: Clause) returns (b: nat)
    requires NoDup(s) && 1 <= e < |s| && c == SortLits(lev, dl, s)
    requires forall i :: 1 <= i < |s| ==> Key(lev, dl, s[0]) < Key(lev, dl, s[i])
    requires forall i :: 1 <= i < |s| ==> Key(lev, dl, s[e]) <= Key(lev, dl, s[i])
    ensures |c| == |s| && c[0] == s[0]
    ensures 1 <= b < |s| && c[1] == s[b] && Key(lev, dl, s[b]) == Key(lev, dl, s[e])
  {
    hide Key;
    SortKeeps(lev, dl, s);
    SortSorts(lev, dl, s);
    hide SortLits;
    assert s[0] in c && s[e] in c && c[0] in s && c[1] in s;
    var z :| 0 <= z < |c| && c[z] == s[0];
    var y :| 0 <= y < |c| && c[y] == s[e];
    var a :| 0 <= a < |s| && s[a] == c[0];
    b :| 0 <= b < |s| && s[b] == c[1];
  }

  /** The learned clause as it is stored: its watches are the literals of the two highest levels. */
  lemma LearnedSorted(s: State, added: Clause, d: nat, c: Clause)
    requires Sound(s) && Learned(s, added) && s.T.dl > 0 && Target(s.T, added, d) && |added| > 1
    requires c == SortLits(s.T.lev, s.T.dl, added)
    ensures |c| == |added| && c[0] == added[0]
    ensures -c[1] in s.T.lev && s.T.lev[-c[1]] == d
  {
    hide Sound, Entails, Target, SortLits;
    TargetBelow(s, added, d);
    forall i | 0 <= i < |added|
      ensures Key(s.T.lev, s.T.dl, added[i]) == 1 + s.T.dl - s.T.lev[-added[i]]
    {
      var l := added[i];
      assert l in added;
      FalseKey(s, l);
    }
    hide Key;
    var e :| 1 <= e < |added| && s.T.lev[-added[e]] == d;
    var b := LeastFirst(s.T.lev, s.T.dl, added, e, c);
  }

  lemma FalseKey(s: State, l: Lit)
    requires Sound(s) && -l in s.T.lev
    ensures Key(s.T.lev, s.T.dl, l) == 1 + s.T.dl - s.T.lev[-l]
  {
    hide Layered, Decided, ReasonsOk, TrailSound, TopUnits, LockedBy, ClausesEntailed;
    assert -(-l) !in s.T.pos;
  }

  /** After going back, all but the first literal of the learned clause are still false. */
  lemma StillFalse(s: State, added: Clause, d: nat, k: nat)
    requires Sound(s) && Learned(s, added) && s.T.dl > 0 && Target(s.T, added, d) && Splits(s.T, k, d)
    ensures var U := Prefix(s.T, k, d);
      && Unassigned(U, added[0]) && added[0] != 0
      && U.lev.Keys == U.pos.Keys && |U.lits| == k && U.dl == d
      && (forall l :: l in U.pos ==> U.pos[l] < k)
      && (forall i :: 1 <= i < |added| ==> -added[i] in U.pos && -added[i] in U.lev && U.lev[-added[i]] <= d)
      && (d > 0 ==> exists i :: 1 <= i < |added| && -added[i] in U.lev && U.lev[-added[i]] == d)
  {
    hide Entails, Target, Layered, Decided, ReasonsOk, TrailSound, TopUnits, LockedBy, ClausesEntailed;
    var U := Prefix(s.T, k, d);
    TargetBelow(s, added, d);
    var l := added[0];
    assert l in added;
    assert -l in s.T.pos && -(-l) !in s.T.pos;
    forall i | 1 <= i < |added|
      ensures -added[i] in U.pos && -added[i] in U.lev && U.lev[-added[i]] == s.T.lev[-added[i]]
    {
      var j := -added[i];
      assert j in s.T.pos && s.T.lev[j] <= d;
    }
    if d > 0 {
      var i :| 1 <= i < |added| && s.T.lev[-added[i]] == d;
      assert U.lev[-added[i]] == d;
    }
  }

  lemma ForcesReason(U: Trail, added: Clause, R: Clause, r: Reason)
    requires |added| >= 1 && SameLits(added, R) && Unassigned(U, added[0]) && U.lev.Keys == U.pos.Keys
    requires forall l :: l in U.pos ==> U.pos[l] < |U.lits|
    requires forall i :: 1 <= i < |added| ==> -added[i] in U.pos
    requires U.dl > 0 ==> exists i :: 1 <= i < |added| && -added[i] in U.lev && U.lev[-added[i]] == U.dl
    ensures IsReason(Extend(U, added[0], r), added[0], R)
  {
    var l := added[0];
    var V := Extend(U, l, r);
    assert l in added;
    forall k | k in R && k != l
      ensures -k in V.pos && V.pos[-k] < V.pos[l]
    {
      assert k in added;
      var i :| 0 <= i < |added| && added[i] == k;
    }
    if U.dl > 0 {
      var i :| 1 <= i < |added| && -added[i] in U.lev && U.lev[-added[i]] == U.dl;
      var k := added[i];
      assert k in added && k in R;
      assert k != l && -k in V.lev && V.lev[-k] == V.lev[l];
    }
  }

  /** What undoing leaves of the state in which the learned clause was stored. */
  ghost predicate WentBack(s: State, added: Clause, u: State, k: nat, d: nat) {
    Undone(StoreState(s, added, true, true), u, k, d)
  }

  lemma WentBackFrame(s: State, added: Clause, u: State, k: nat, d: nat)
    requires WentBack(s, added, u, k, d) && added != []
    ensures Splits(s.T, k, d) && u.T == Prefix(s.T, k, d)
    ensures u.n == s.n && u.F == s.F && u.wdone == k && u.bdone == k && u.ttail == k && u.ttail2 == k
    ensures u.mtcls == s.mtcls && (s.mtcls.None? ==> u.conflict.NoClause?)
    ensures |added| != 2 ==> s.next in u.D.cls && u.D.cls[s.next] == SortLits(s.T.lev, s.T.dl, added)
  {
    hide SortLits, LockedBy, Prefix;
    StoreFrame(s, added, true, true);
    assert |added| != 2 ==> StoreState(s, added, true, true).D.cls[s.next] == SortLits(s.T.lev, s.T.dl, added);
  }

  lemma BacktrackForces(s: State, added: Clause, u: State, k: nat, d: nat)
    requires Sound(s) && Learned(s, added) && s.T.dl > 0 && Target(s.T, added, d)
    requires WentBack(s, added, u, k, d)
    ensures CanForce(u, added[0], LearnedReason(added, s.next))
    ensures d == 0 ==> |added| == 1 && u.D.cls[s.next] == [added[0]]
  {
    hide Sound, Entails, Target, SortLits, WentBack, IsReason, Prefix;
    var l, r := added[0], LearnedReason(added, s.next);
    WentBackFrame(s, added, u, k, d);
    StillFalse(s, added, d, k);
    TargetBelow(s, added, d);
    assert l in added;
    SortKeeps(s.T.lev, s.T.dl, added);
    if |added| == 2 {
      assert added == [l, added[1]];
      var R := [added[1], l];
      SwapTwo(added);
      EntailsSame(s.F, added, R);
      ForcesReason(u.T, added, R, r);
    } else {
      ForcesReason(u.T, added, u.D.cls[s.next], r);
    }
  }

  lemma SwapTwo(c: Clause)
    requires |c| == 2
    ensures SameLits(c, [c[1], c[0]])
  {
    assert c == [c[0], c[1]];
  }

  /** The learned clause is watched by the literal it forced and by one of the level it went back to. */
  lemma LearnedRepaired(s: State, added: Clause, u: State, k: nat, d: nat)
    requires Sound(s) && Learned(s, added) && s.T.dl > 0 && Target(s.T, added, d)
    requires WentBack(s, added, u, k, d)
    ensures Repaired(ForceState(u, added[0], LearnedReason(added, s.next)), Widen(s, NOTHING, added))
  {
    hide Sound, Entails, SortLits, WentBack, Prefix, WatchOk, LearnedReason, Learned, Target;
    var r := LearnedReason(added, s.next);
    LearnedNonEmpty(s, added);
    var v := ForceState(u, added[0], r);
    WentBackFrame(s, added, u, k, d);
    StillFalse(s, added, d, k);
    TargetBelow(s, added, d);
    if |added| == 2 {
      ForcedPair(u.T, added[0], added[1], r, v.bdone, d);
    } else if |added| > 2 {
      var c := SortLits(s.T.lev, s.T.dl, added);
      LearnedSorted(s, added, d, c);
      SecondWatch(s, added, u, k, d, c);
      ForcedPair(u.T, added[0], c[1], r, v.wdone, d);
    } else {
      SortKeeps(s.T.lev, s.T.dl, added);
    }
  }

  lemma LearnedNonEmpty(s: State, added: Clause)
    requires Learned(s, added) && s.T.dl > 0
    ensures |added| >= 1
  {
  }

  lemma SecondWatch(s: State, added: Clause, u: State, k: nat, d: nat, c: Clause)
    requires Sound(s) && Learned(s, added) && s.T.dl > 0 && Target(s.T, added, d) && |added| > 2
    requires WentBack(s, added, u, k, d) && c == SortLits(s.T.lev, s.T.dl, added)
    ensures |c| == |added| && -c[1] in u.T.lev && u.T.lev[-c[1]] == d
  {
    hide Entails, SortLits, WentBack, Learned, Target, Layered;
    hide Decided, ReasonsOk, TrailSound, TopUnits, LockedBy, ClausesEntailed;
    LearnedNonEmpty(s, added);
    WentBackFrame(s, added, u, k, d);
    LearnedSorted(s, added, d, c);
    var j := -c[1];
    assert j in s.T.pos && s.T.lev[j] == d;
    assert j in u.T.lev;
  }

  lemma ForcedPair(U: Trail, l: Lit, o: Lit, r: Reason, b: nat, d: nat)
    requires Unassigned(U, l) && l != 0 && U.lev.Keys == U.pos.Keys && U.dl == d
    requires -o in U.lev && U.lev[-o] == d
    ensures WatchOk(Extend(U, l, r), b, l, o) && WatchOk(Extend(U, l, r), b, o, l)
  {
  }

  /** A conflict above top level: the state after learning, going back and forcing satisfies the invariant again. */
  lemma BacktrackKeeps(s: State, added: Clause, u: State, k: nat, d: nat)
    requires Invariant(s, NOTHING) && Learned(s, added) && s.T.dl > 0 && Target(s.T, added, d)
    requires WentBack(s, added, u, k, d)
    requires ListsOk(u.D) && ParkedTrue(u.T, u.D.dhtps)
    ensures Invariant(u, Widen(s, NOTHING, added))
    ensures CanForce(u, added[0], LearnedReason(added, s.next))
    ensures Invariant(ForceState(u, added[0], LearnedReason(added, s.next)), NOTHING)
  {
    hide Invariant, Learned, Target, ListsOk, ParkedTrue, CanForce, Sound, Undone, StoreState, Widen, Repaired;
    var t := StoreState(s, added, true, true);
    var x := Widen(s, NOTHING, added);
    LearnedNonEmpty(s, added);
    InvariantSound(s, NOTHING);
    LearnedStorable(s, added);
    StoreKeeps(s, NOTHING, added, true, true);
    StoreFrame(s, added, true, true);
    TargetBelow(s, added, d);
    UndoKeeps(t, u, x, k, d);
    BacktrackForces(s, added, u, k, d);
    WentBackFrame(s, added, u, k, d);
    PrefixLevel(s, k, d);
    ForceInv(u, x, added[0], LearnedReason(added, s.next));
    LearnedRepaired(s, added, u, k, d);
    RepairKeeps(ForceState(u, added[0], LearnedReason(added, s.next)), x);
  }

  lemma PrefixLevel(s: State, k: nat, d: nat)
    requires Sound(s) && k <= |s.T.lits|
    ensures Prefix(s.T, k, d).dl == d
  {
    hide Layered, Decided, ReasonsOk, TrailSound, TopUnits, LockedBy, ClausesEntailed;
  }

  lemma InvariantSound(s: State, x: Exempt)
    requires Invariant(s, x)
    ensures Sound(s)
  {
    hide TrailOk, TrailSound, ReasonsOk, TopUnits, LockedBy;
    hide WatchInv, QueueOk, AssumptionsOk, ConflictOk, EmptyOk, ClausesOk;
    hide ImplsOk, ListsOk, StacksOk, ImplsEntailed, ParkedTrue, ClausesEntailed;
  }

  lemma LearnedStorable(s: State, added: Clause)
    requires Learned(s, added)
    ensures Storable(s, added)
  {
  }

  /** A conflict at top level: the empty clause is learned, and there is nothing left to force. */
  lemma TopBacktrackKeeps(s: State, u: State, k: nat)
    requires Invariant(s, NOTHING) && Learned(s, []) && s.T.dl == 0
    requires WentBack(s, [], u, k, 0)
    requires ListsOk(u.D) && ParkedTrue(u.T, u.D.dhtps)
    ensures Invariant(u, NOTHING) && u.mtcls.Some?
  {
    hide Invariant, Learned, ListsOk, ParkedTrue, Sound, Repaired, SortLits, LockedBy, Prefix;
    var t := StoreState(s, [], true, true);
    var x := Widen(s, NOTHING, []);
    LearnedStorable(s, []);
    StoreKeeps(s, NOTHING, [], true, true);
    assert t.mtcls.Some?;
    UndoKeeps(t, u, x, k, 0);
    RepairKeeps(u, x);
  }
}
