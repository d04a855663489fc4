/** Deleting clauses: top-level satisfied ones and learned ones, but never the reason of a true literal. */
module Collecting {
  import opened Cnf
  import opened Trails
  import opened Inference
  import opened Watches
  import opened Links
  import opened States
  import opened Counting
  import opened Storing

  /** The literals of s that are not true at top level. */
  function WithoutTop(level: map<Lit, nat>, s: seq<Lit>): seq<Lit> {
    if s == [] then []
    else if TopTrue(level, s[|s| - 1]) then WithoutTop(level, s[..|s| - 1])
    else WithoutTop(level, s[..|s| - 1]) + [s[|s| - 1]]
  }

  lemma {:induction false} WithoutTopElems(level: map<Lit, nat>, s: seq<Lit>)
    ensures forall l :: l in WithoutTop(level, s) <==> l in s && !TopTrue(level, l)
  {
    if s != [] {
      WithoutTopElems(level, s[..|s| - 1]);
      assert s == s[..|s| - 1] + [s[|s| - 1]];
    }
  }

  /** Binary clauses with a literal true at top level are dropped. */
  function Trimmed(level: map<Lit, nat>, l: Lit, s: seq<Lit>): seq<Lit> {
    if TopTrue(level, l) then [] else WithoutTop(level, s)
  }

  ghost predicate AllTrimmed(level: map<Lit, nat>, impls: map<Lit, seq<Lit>>, impls': map<Lit, seq<Lit>>) {
    forall l :: At(impls', l) == Trimmed(level, l, At(impls, l))
  }

  lemma TrimmedElems(level: map<Lit, nat>, impls: map<Lit, seq<Lit>>, impls': map<Lit, seq<Lit>>)
    requires AllTrimmed(level, impls, impls')
    ensures forall a, b {:trigger b in At(impls', a)} {:trigger b in At(impls, a)} ::
      b in At(impls', a) <==> b in At(impls, a) && !TopTrue(level, a) && !TopTrue(level, b)
  {
    hide At, TopTrue, WithoutTop;
    forall a, b
      ensures b in At(impls', a) <==> b in At(impls, a) && !TopTrue(level, a) && !TopTrue(level, b)
    {
      WithoutTopElems(level, At(impls, a));
    }
  }

  /** Clauses that may be deleted: not locked, and learned and large, or satisfied at top level. */
  ghost predicate Disposable(s: State, c: Cid) {
    && c in s.D.cls && c !in s.locked
    && ((c in s.D.learned && |s.D.cls[c]| > 2) || TopSatisfied(s.T.lev, s.D.cls[c]))
  }

  ghost predicate CanCollect(s: State, del: set<Cid>) {
    forall c :: c in del ==> Disposable(s, c)
  }

  /** t is s after the clauses of del and the binary clauses satisfied at top level are deleted. */
  ghost predicate Collected(s: State, t: State, del: set<Cid>) {
    && t == s.(D := t.D, ocls := Without(s.ocls, del), lcls := Without(s.lcls, del), k := t.k)
    && Purged(s.D, t.D, del) && AllTrimmed(s.T.lev, s.D.impls, t.D.impls)
    && t.k == CountersOf(t.D.cls, s.locked, t.ocls, t.lcls)
  }

  lemma CollectTrail(s: State, t: State, del: set<Cid>)
    requires TrailInv(s) && CanCollect(s, del) && Collected(s, t, del)
    ensures TrailInv(t)
  {
    hide TrailOk, TrailSound, IsReason, TopSatisfied, Without, AllTrimmed, CountersOf;
    forall l | l in s.T.rsn && s.T.rsn[l].Antecedent?
      ensures s.T.rsn[l].c in s.D.cls && s.T.rsn[l].c in t.D.cls
      ensures SameLits(s.D.cls[s.T.rsn[l].c], t.D.cls[s.T.rsn[l].c])
    {
      assert ReasonOk(s.T, s.D.cls, l);
      assert s.T.rsn[l].c in s.locked;
    }
    ReasonsStore(s.T, s.D.cls, t.D.cls);
  }

  lemma CollectStacks(s: State, t: State, del: set<Cid>)
    requires StacksOk(s.D.cls, s.D.learned, s.ocls, s.lcls, s.next) && Collected(s, t, del)
    ensures StacksOk(t.D.cls, t.D.learned, t.ocls, t.lcls, t.next)
  {
    hide Without, AllTrimmed, CountersOf, At;
    WithoutElems(s.ocls, del);
    WithoutElems(s.lcls, del);
  }

  lemma CollectImpls(s: State, t: State, del: set<Cid>)
    requires ImplsOk(s.n, s.D.impls) && ImplsEntailed(s.F, s.D.impls) && Collected(s, t, del)
    ensures ImplsOk(t.n, t.D.impls) && ImplsEntailed(t.F, t.D.impls)
  {
    hide Without, AllTrimmed, CountersOf, At, Entails, TopTrue, Purged;
    TrimmedElems(s.T.lev, s.D.impls, t.D.impls);
    forall a, b | b in At(t.D.impls, a)
      ensures a != b && 1 <= Var(a) <= t.n && 1 <= Var(b) <= t.n && a in At(t.D.impls, b) && Entails(t.F, [a, b])
    {
      assert b in At(s.D.impls, a);
      assert a in At(s.D.impls, b);
    }
  }

  lemma CollectStore(s: State, t: State, del: set<Cid>)
    requires StoreInv(s) && Collected(s, t, del)
    ensures StoreInv(t)
  {
    CollectStacks(s, t, del);
    CollectImpls(s, t, del);
    hide ImplsOk, ImplsEntailed, ListsOk, StacksOk, AllTrimmed, CountersOf, Entails, Without, At;
    PurgeLinks(s.D, t.D, del);
    forall l | At(t.D.dhtps, l) != []
      ensures l in t.T.pos
    {
      WithoutElems(At(s.D.dhtps, l), del);
    }
  }

  lemma CollectCovers(s: State, t: State, del: set<Cid>, C: Clause)
    requires Covered(s.T, s.D, C) && CanCollect(s, del) && Collected(s, t, del)
    ensures Covered(t.T, t.D, C)
  {
    hide Without, AllTrimmed, CountersOf, Tautology, At;
    TrimmedElems(s.T.lev, s.D.impls, t.D.impls);
    if StoredLarge(s.D, C) {
      var c :| c in s.D.watched && c !in s.D.learned && c in s.D.cls && SameLits(s.D.cls[c], C);
      if c in del {
        var l :| l in s.D.cls[c] && l in s.T.lev && s.T.lev[l] == 0;
        assert l in C && l in t.T.lev && t.T.lev[l] == 0;
      } else {
        assert c in t.D.watched && c !in t.D.learned && c in t.D.cls && SameLits(t.D.cls[c], C);
      }
    } else if StoredBinary(s.D.impls, C) {
      var a, b :| b in At(s.D.impls, a) && SameLits([a, b], C);
      if TopTrue(s.T.lev, a) || TopTrue(s.T.lev, b) {
        var l := if TopTrue(s.T.lev, a) then a else b;
        assert l in [a, b] && l in C && l in t.T.lev && t.T.lev[l] == 0;
      } else {
        assert b in At(t.D.impls, a);
      }
    } else if TopSatisfied(s.T.lev, C) {
      var l :| l in C && l in s.T.lev && s.T.lev[l] == 0;
      assert l in C && l in t.T.lev && t.T.lev[l] == 0;
    }
  }

  lemma CollectWatch(s: State, t: State, del: set<Cid>)
    requires WatchInv(s, NOTHING) && CanCollect(s, del) && Collected(s, t, del)
    ensures WatchInv(t, NOTHING)
  {
    hide Without, CountersOf, At, ClauseWatched, WatchOk, AllTrimmed, Covered, CanCollect, TopTrue, CopiesOk;
    if s.mtcls.None? {
      CopiesMore(s.F, s.T, s.D, t.F, t.T, t.D);
      TrimmedElems(s.T.lev, s.D.impls, t.D.impls);
      forall C | C in s.F - {}
        ensures Covered(t.T, t.D, C)
      {
        CollectCovers(s, t, del, C);
      }
      forall c | c in t.D.watched - {}
        ensures c in t.D.cls && ClauseWatched(t.T, t.wdone, t.D.cls[c])
      {
        assert c in s.D.watched - {};
      }
      forall w, o | o in At(t.D.impls, w)
        ensures WatchOk(t.T, t.bdone, w, o)
      {
        assert o in At(s.D.impls, w) && (w, o) !in NOTHING.holeB;
      }
    }
  }

  lemma CollectRest(s: State, t: State, del: set<Cid>)
    requires QueueOk(s) && AssumptionsOk(s) && FormulaOk(s.n, s.F) && s.conflict.NoClause? && s.mtcls.None?
    requires Collected(s, t, del)
    ensures QueueOk(t) && AssumptionsOk(t) && ConflictOk(t) && EmptyOk(t) && FormulaOk(t.n, t.F) && TallyOk(t)
  {
    hide Without, CountersOf, AllTrimmed, Purged;
    KeepQueue(s, t);
    KeepAssumptions(s, t);
  }

  /** Deleting disposable clauses keeps the invariant: reasons stay, and every original clause is still looked after. */
  lemma CollectKeeps(s: State, t: State, del: set<Cid>)
    requires Invariant(s, NOTHING) && s.conflict.NoClause? && s.mtcls.None?
    requires CanCollect(s, del) && Collected(s, t, del)
    ensures Invariant(t, NOTHING)
  {
    hide TrailInv, StoreInv, WatchInv, QueueOk, AssumptionsOk, ConflictOk;
    hide EmptyOk, FormulaOk, TallyOk, CanCollect, Collected;
    CollectTrail(s, t, del);
    CollectStore(s, t, del);
    CollectWatch(s, t, del);
    CollectRest(s, t, del);
  }

  // ---------- carrying it out ----------

  /** Unlinks the clauses of del from one list. */
  method PurgeList(s: seq<Cid>, del: set<Cid>) returns (r: seq<Cid>)
    ensures r == Without(s, del)
  {
    hide Without;
    r := [];
    WithoutNone(del);
    for i := 0 to |s|
      invariant r == Without(s[..i], del)
    {
      WithoutStep(s[..i], s[i], del);
      assert s[..i + 1] == s[..i] + [s[i]];
      if s[i] !in del {
        r := r + [s[i]];
      }
    }
    assert s[..|s|] == s;
  }

  /** Drops the implications of l that hold at top level, all of them if l does. */
  method TrimList(level: map<Lit, nat>, l: Lit, s: seq<Lit>) returns (r: seq<Lit>)
    ensures r == Trimmed(level, l, s)
  {
    r := [];
    if l !in level || level[l] != 0 {
      for i := 0 to |s|
        invariant r == WithoutTop(level, s[..i])
      {
        assert s[..i + 1][..i] == s[..i];
        var other := s[i];
        if other !in level || level[other] != 0 {
          r := r + [other];
        }
      }
      assert s[..|s|] == s;
    }
  }

  /** Does so for all literals. */
  method PurgeLists(n: nat, lists: map<Lit, seq<Cid>>, del: set<Cid>) returns (r: map<Lit, seq<Cid>>)
    ensures forall l :: At(r, l) == if 1 <= Var(l) <= n then Without(At(lists, l), del) else At(lists, l)
  {
    hide Without;
    r := lists;
    for v := 1 to n + 1
      invariant forall l :: At(r, l) == if 1 <= Var(l) < v then Without(At(lists, l), del) else At(lists, l)
    {
      var p := PurgeList(At(r, v), del);
      var q := PurgeList(At(r, -v), del);
      r := r[v := p][-v := q];
    }
  }

  method TrimLists(n: nat, level: map<Lit, nat>, impls: map<Lit, seq<Lit>>) returns (r: map<Lit, seq<Lit>>)
    ensures forall l :: At(r, l) == if 1 <= Var(l) <= n then Trimmed(level, l, At(impls, l)) else At(impls, l)
  {
    hide Trimmed;
    r := impls;
    for v := 1 to n + 1
      invariant forall l :: At(r, l) == if 1 <= Var(l) < v then Trimmed(level, l, At(impls, l)) else At(impls, l)
    {
      var p := TrimList(level, v, At(r, v));
      var q := TrimList(level, -v, At(r, -v));
      r := r[v := p][-v := q];
    }
  }

  lemma ListedRange(s: State, l: Lit, c: Cid)
    requires StoreInv(s) && (c in At(s.D.htps, l) || c in At(s.D.dhtps, l))
    ensures 1 <= Var(l) <= s.n
  {
    hide ParkedTrue, ClausesEntailed, ImplsEntailed, StacksOk, Located, ImplsOk, At;
    assert c in At(s.D.htps, l) ==> HtpOk(s.D, l, c);
    assert c in At(s.D.dhtps, l) ==> DhtpOk(s.D, l, c);
    assert ClauseOk(s.n, s.D.cls[c]) && l in s.D.cls[c];
  }

  /** Literals that are not literals of the solver have no lists. */
  lemma NoLists(s: State, l: Lit)
    requires StoreInv(s)
    ensures 1 <= Var(l) <= s.n || (At(s.D.htps, l) == [] && At(s.D.dhtps, l) == [] && At(s.D.impls, l) == [])
  {
    hide ListsOk, ParkedTrue, ClausesEntailed, ImplsEntailed, StacksOk, At;
    forall c | c in At(s.D.htps, l) || c in At(s.D.dhtps, l)
      ensures 1 <= Var(l) <= s.n
    {
      ListedRange(s, l, c);
    }
    forall b | b in At(s.D.impls, l)
      ensures 1 <= Var(l) <= s.n
    {
      assert l in At(s.D.impls, b);
    }
    NoElems(At(s.D.htps, l));
    NoElems(At(s.D.dhtps, l));
    NoElems(At(s.D.impls, l));
  }

  lemma NoElems<E>(s: seq<E>)
    ensures s == [] || exists x :: x in s
  {
    if s != [] {
      assert s[0] in s;
    }
  }

  /** The counters after the clauses of del are taken off a stack. */
  function CountOff(k: Counters, learned: bool, before: Tally, after: Tally): Counters {
    if learned then
      k.(nlclauses := k.nlclauses - before.clauses + after.clauses, llits := k.llits - before.lits + after.lits)
    else k.(noclauses := k.noclauses - before.clauses + after.clauses, olits := k.olits - before.lits + after.lits)
  }

  /** Takes the clauses of del off a stack, uncounting the large ones. */
  method CollectStack(cls: map<Cid, Clause>, stack: seq<Cid>, learned: bool, del: set<Cid>, counts: Counters)
    returns (rest: seq<Cid>, counts': Counters)
    ensures rest == Without(stack, del)
    ensures counts' == CountOff(counts, learned, Count(cls, {}, stack), Count(cls, {}, rest))
  {
    hide Without, Count;
    rest, counts' := [], counts;
    WithoutNone(del);
    CountNone(cls);
    for i := 0 to |stack|
      invariant rest == Without(stack[..i], del)
      invariant counts' == CountOff(counts, learned, Count(cls, {}, stack[..i]), Count(cls, {}, rest))
    {
      var c := stack[i];
      WithoutStep(stack[..i], c, del);
      assert stack[..i + 1] == stack[..i] + [c];
      CountPush(cls, {}, stack[..i], c);
      CountPush(cls, {}, rest, c);
      if c in del {
        if c in cls && |cls[c]| > 2 {
          counts' := if learned then counts'.(nlclauses := counts'.nlclauses - 1, llits := counts'.llits - |cls[c]|)
                     else counts'.(noclauses := counts'.noclauses - 1, olits := counts'.olits - |cls[c]|);
        }
      } else {
        rest := rest + [c];
      }
    }
    assert stack[..|stack|] == stack;
  }

  lemma CountNone(cls: map<Cid, Clause>)
    ensures Count(cls, {}, []) == Tally(0, 0, 0)
  {
  }

  /** How many clauses and literals are counted does not depend on the locks; unlocked clauses do not count as locked.
      */
  lemma {:induction false} CountWithout(cls: map<Cid, Clause>, locked: set<Cid>, s: seq<Cid>, del: set<Cid>)
    requires forall c :: c in s && c in del ==> c !in locked
    ensures Count(cls, locked, Without(s, del)).locked == Count(cls, locked, s).locked
    decreases |s|
  {
    hide Without, Count;
    if s == [] {
      WithoutNone(del);
    } else {
      var r, c := s[..|s| - 1], s[|s| - 1];
      assert s == r + [c];
      CountWithout(cls, locked, r, del);
      WithoutStep(r, c, del);
      CountPush(cls, locked, r, c);
      CountPush(cls, locked, Without(r, del), c);
      assert Without(r, del) + [] == Without(r, del);
    }
  }

  lemma {:induction false} CountAnyLocks(cls: map<Cid, Clause>, locked: set<Cid>, s: seq<Cid>)
    ensures Count(cls, locked, s) == Count(cls, {}, s).(locked := Count(cls, locked, s).locked)
  {
    if s != [] {
      CountAnyLocks(cls, locked, s[..|s| - 1]);
    }
  }

  lemma CollectedCounts(s: State, cls': map<Cid, Clause>, del: set<Cid>, ocls: seq<Cid>, lcls: seq<Cid>, k: Counters)
    requires TallyOk(s) && forall c :: c in del ==> c !in s.locked
    requires forall c :: c in cls' <==> c in s.D.cls && c !in del
    requires forall c :: c in cls' ==> cls'[c] == s.D.cls[c]
    requires ocls == Without(s.ocls, del) && lcls == Without(s.lcls, del)
    requires k == CountOff(CountOff(s.k, false, Count(s.D.cls, {}, s.ocls), Count(s.D.cls, {}, ocls)),
                           true, Count(s.D.cls, {}, s.lcls), Count(s.D.cls, {}, lcls))
    ensures k == CountersOf(cls', s.locked, ocls, lcls)
  {
    hide Without, Count;
    WithoutElems(s.ocls, del);
    WithoutElems(s.lcls, del);
    CountWithout(s.D.cls, s.locked, s.lcls, del);
    CountAnyLocks(s.D.cls, s.locked, s.ocls);
    CountAnyLocks(s.D.cls, s.locked, s.lcls);
    CountAnyLocks(s.D.cls, s.locked, ocls);
    CountAnyLocks(s.D.cls, s.locked, lcls);
    CountSame(s.D.cls, cls', s.locked, s.locked, ocls);
    CountSame(s.D.cls, cls', s.locked, s.locked, lcls);
  }

  /** The store after the lists of all literals were gone through. */
  lemma PurgedAll(s: State, E: Store, del: set<Cid>)
    requires StoreInv(s) && E.watched == s.D.watched - del && E.learned == s.D.learned - del
    requires E.cls == map c | c in s.D.cls && c !in del :: s.D.cls[c]
    requires forall l :: 1 <= Var(l) <= s.n ==> At(E.htps, l) == Without(At(s.D.htps, l), del)
    requires forall l :: 1 <= Var(l) <= s.n ==> At(E.dhtps, l) == Without(At(s.D.dhtps, l), del)
    requires forall l :: 1 <= Var(l) <= s.n ==> At(E.impls, l) == Trimmed(s.T.lev, l, At(s.D.impls, l))
    requires forall l :: !(1 <= Var(l) <= s.n) ==>
      At(E.htps, l) == At(s.D.htps, l) && At(E.dhtps, l) == At(s.D.dhtps, l) && At(E.impls, l) == At(s.D.impls, l)
    ensures Purged(s.D, E, del) && AllTrimmed(s.T.lev, s.D.impls, E.impls)
  {
    hide StoreInv, At;
    WithoutNone(del);
    forall l
      ensures At(E.htps, l) == Without(At(s.D.htps, l), del) && At(E.dhtps, l) == Without(At(s.D.dhtps, l), del)
      ensures At(E.impls, l) == Trimmed(s.T.lev, l, At(s.D.impls, l))
    {
      NoLists(s, l);
    }
  }

  // ---------- choosing what to delete ----------

  method IsTopSatisfied(level: map<Lit, nat>, c: Clause) returns (r: bool)
    ensures r <==> TopSatisfied(level, c)
  {
    for p := 0 to |c|
      invariant forall i :: 0 <= i < p ==> !TopTrue(level, c[i])
    {
      var l := c[p];
      if l in level && level[l] == 0 {
        assert l in c && TopTrue(level, l);
        return true;
      }
    }
    return false;
  }

  /** Unlocked clauses of the stack that are satisfied at top level. */
  ghost function Satisfied(level: map<Lit, nat>, cls: map<Cid, Clause>, locked: set<Cid>, stack: seq<Cid>): set<Cid> {
    set c | c in stack && c in cls && c !in locked && TopSatisfied(level, cls[c])
  }

  method MarkSatisfied(level: map<Lit, nat>, cls: map<Cid, Clause>, locked: set<Cid>, stack: seq<Cid>)
    returns (del: set<Cid>)
    ensures del == Satisfied(level, cls, locked, stack)
  {
    hide TopSatisfied;
    del := {};
    for p := 0 to |stack|
      invariant del == Satisfied(level, cls, locked, stack[..p])
    {
      var c := stack[p];
      assert stack[..p + 1] == stack[..p] + [c];
      if c in cls && c !in locked {
        var r := IsTopSatisfied(level, cls[c]);
        if r {
          del := del + {c};
        }
      }
    }
    assert stack[..|stack|] == stack;
  }

  /** A learned clause that may be deleted although it is not satisfied. */
  ghost predicate Candidate(cls: map<Cid, Clause>, locked: set<Cid>, stack: seq<Cid>, c: Cid) {
    c in stack && c !in locked && IsLarge(cls, c)
  }

  /** The unlocked large clauses of a learned stack. */
  function Unlocked(cls: map<Cid, Clause>, locked: set<Cid>, stack: seq<Cid>): int {
    var t := Count(cls, locked, stack);
    t.clauses - t.locked
  }

  lemma UnlockedPush(cls: map<Cid, Clause>, locked: set<Cid>, s: seq<Cid>, c: Cid)
    ensures Unlocked(cls, locked, s + [c]) ==
      Unlocked(cls, locked, s) + if IsLarge(cls, c) && c !in locked then 1 else 0
  {
    hide Count;
    CountPush(cls, locked, s, c);
  }

  lemma {:induction false} UnlockedGrows(cls: map<Cid, Clause>, locked: set<Cid>, s: seq<Cid>, p: nat)
    requires p <= |s|
    ensures 0 <= Unlocked(cls, locked, s[..p]) <= Unlocked(cls, locked, s)
    decreases |s|
  {
    if p == |s| {
      assert s[..p] == s;
      CountBounds(cls, locked, s);
    } else {
      var r := s[..|s| - 1];
      assert r[..p] == s[..p] && s == r + [s[|s| - 1]];
      UnlockedGrows(cls, locked, r, p);
      hide Unlocked;
      UnlockedPush(cls, locked, r, s[|s| - 1]);
    }
  }

  /** The clauses of a stack that are large, not locked and, if satisfied ones are dealt with already, not satisfied. */
  ghost function Candidates(level: map<Lit, nat>, cls: map<Cid, Clause>, locked: set<Cid>, stack: seq<Cid>,
                            sat: bool): seq<Cid> {
    if stack == [] then []
    else
      var r, c := Candidates(level, cls, locked, stack[..|stack| - 1], sat), stack[|stack| - 1];
      if c !in locked && IsLarge(cls, c) && !(sat && TopSatisfied(level, cls[c])) then r + [c] else r
  }

  lemma CandidatesPush(level: map<Lit, nat>, cls: map<Cid, Clause>, locked: set<Cid>, stack: seq<Cid>, sat: bool,
                       c: Cid)
    ensures Candidates(level, cls, locked, stack + [c], sat) == Candidates(level, cls, locked, stack, sat) +
      if c !in locked && IsLarge(cls, c) && !(sat && TopSatisfied(level, cls[c])) then [c] else []
  {
    assert (stack + [c])[..|stack|] == stack;
  }

  ghost predicate AreCandidates(level: map<Lit, nat>, cls: map<Cid, Clause>, locked: set<Cid>, lcls: seq<Cid>,
                                sat: bool, C: seq<Cid>) {
    forall c :: c in C <==> c in lcls && c !in locked && IsLarge(cls, c) && !(sat && TopSatisfied(level, cls[c]))
  }

  lemma {:induction false} CandidatesAre(level: map<Lit, nat>, cls: map<Cid, Clause>, locked: set<Cid>,
                                         stack: seq<Cid>, sat: bool)
    ensures AreCandidates(level, cls, locked, stack, sat, Candidates(level, cls, locked, stack, sat))
    ensures NoDup(stack) ==> NoDup(Candidates(level, cls, locked, stack, sat))
  {
    if stack != [] {
      var r, c := stack[..|stack| - 1], stack[|stack| - 1];
      assert stack == r + [c];
      CandidatesAre(level, cls, locked, r, sat);
      if NoDup(stack) {
        assert NoDup(r) && c !in r;
      }
    }
  }

  /** Goes through the learned clauses: satisfied ones are marked if asked for, the other unlocked large ones are
      candidates. The buffer for them has room because their number is counted. */
  method MarkLearned(level: map<Lit, nat>, cls: map<Cid, Clause>, locked: set<Cid>, stack: seq<Cid>, sat: bool,
                     resolved: array<Cid>)
    returns (del: set<Cid>, lcollect: nat, rhead: nat)
    requires Unlocked(cls, locked, stack) <= resolved.Length
    modifies resolved
    ensures del == if sat then Satisfied(level, cls, locked, stack) else {}
    ensures rhead <= resolved.Length && lcollect + rhead == Unlocked(cls, locked, stack)
    ensures resolved[..rhead] == Candidates(level, cls, locked, stack, sat)
    ensures lcollect == 0 <==> forall c :: c in del ==> !IsLarge(cls, c)
  {
    hide TopSatisfied, Unlocked, Candidates;
    del, lcollect, rhead := {}, 0, 0;
    assert stack[..0] == [];
    UnlockedGrows(cls, locked, stack, 0);
    NoCandidates(level, cls, locked, sat);
    for p := 0 to |stack|
      invariant del == if sat then Satisfied(level, cls, locked, stack[..p]) else {}
      invariant lcollect + rhead == Unlocked(cls, locked, stack[..p]) <= Unlocked(cls, locked, stack)
      invariant resolved[..rhead] == Candidates(level, cls, locked, stack[..p], sat)
      invariant lcollect == 0 <==> forall c :: c in del ==> !IsLarge(cls, c)
    {
      var c := stack[p];
      assert stack[..p + 1] == stack[..p] + [c];
      UnlockedPush(cls, locked, stack[..p], c);
      UnlockedGrows(cls, locked, stack, p + 1);
      CandidatesPush(level, cls, locked, stack[..p], sat, c);
      if c !in cls || c in locked {
        continue;
      }
      if sat {
        var r := IsTopSatisfied(level, cls[c]);
        if r {
          if c !in del && |cls[c]| > 2 {
            assert c in del + {c};
          }
          del := del + {c};
          if |cls[c]| > 2 {
            lcollect := lcollect + 1;
          }
          continue;
        }
      }
      if |cls[c]| <= 2 {
        continue;
      }
      resolved[rhead] := c;
      rhead := rhead + 1;
    }
    assert stack[..|stack|] == stack;
  }

  lemma NoCandidates(level: map<Lit, nat>, cls: map<Cid, Clause>, locked: set<Cid>, sat: bool)
    ensures Candidates(level, cls, locked, [], sat) == [] && Unlocked(cls, locked, []) == 0
  {
  }

  /** Puts the candidates in some order; which of them go first decides which are deleted. */
  method Arrange(resolved: array<Cid>, count: nat)
    requires count <= resolved.Length
    modifies resolved
    ensures multiset(resolved[..count]) == multiset(old(resolved[..count]))
  {
    for i := 0 to count
      invariant multiset(resolved[..count]) == multiset(old(resolved[..count]))
    {
      var j: nat :| i <= j < count;
      resolved[i], resolved[j] := resolved[j], resolved[i];
    }
  }

  /** Marks the first candidates for deletion. */
  method MarkFirst(resolved: array<Cid>, target: nat, del: set<Cid>, lcollect: nat) returns (del': set<Cid>,
                   lcollect': nat)
    requires target <= resolved.Length
    ensures del' == del + (set i | 0 <= i < target :: resolved[i])
    ensures lcollect' == lcollect + target
  {
    del', lcollect' := del, lcollect;
    var rhead := target;
    while rhead > 0
      invariant 0 <= rhead <= target
      invariant del' == del + (set i | rhead <= i < target :: resolved[i])
      invariant lcollect' == lcollect + target - rhead
    {
      rhead := rhead - 1;
      del', lcollect' := del' + {resolved[rhead]}, lcollect' + 1;
    }
  }

  lemma SameElems<E>(a: seq<E>, b: seq<E>)
    requires multiset(a) == multiset(b)
    ensures forall x :: x in b <==> x in a
  {
    forall x
      ensures x in b <==> x in a
    {
      assert x in b <==> x in multiset(b);
    }
  }

  /** The given share of n, rounded up. */
  function Share(percentage: nat, n: nat): nat {
    (percentage * n + 99) / 100
  }

  /** What reduction may delete. */
  ghost predicate Victim(level: map<Lit, nat>, cls: map<Cid, Clause>, locked: set<Cid>, ocls: seq<Cid>,
                         lcls: seq<Cid>, c: Cid) {
    || c in Satisfied(level, cls, locked, ocls)
    || c in Satisfied(level, cls, locked, lcls)
    || Candidate(cls, locked, lcls, c)
  }

  /** What reduction deletes: the satisfied clauses if there are new top-level literals, and the given share of the
      large learned clauses that are neither locked nor satisfied, or all of those if the share is larger. */
  ghost predicate Reduction(level: map<Lit, nat>, cls: map<Cid, Clause>, locked: set<Cid>, ocls: seq<Cid>,
                            lcls: seq<Cid>,
                            sat: bool, llocked: int, percentage: nat, del: set<Cid>)
    requires llocked >= 0
  {
    var S := if sat then Satisfied(level, cls, locked, ocls) + Satisfied(level, cls, locked, lcls) else {};
    var C := Candidates(level, cls, locked, lcls, sat);
    var share := Share(percentage, llocked + |C| + 1);
    S <= del && (forall c :: c in del ==> c in S || c in C) && |del| == |S| + if share >= |C| then |C| else share
  }

  /** Picks the clauses that reduction deletes. */
  method ChooseVictims(level: map<Lit, nat>, cls: map<Cid, Clause>, locked: set<Cid>, ocls: seq<Cid>, lcls: seq<Cid>,
                       sat: bool, counts: Counters, percentage: nat) returns (del: set<Cid>, lcollect: nat)
    requires counts.nlclauses - counts.llocked == Unlocked(cls, locked, lcls) && 0 <= counts.llocked <= counts.nlclauses
    requires NoDup(lcls) && forall c :: c in ocls ==> c !in lcls
    ensures forall c :: c in del ==> Victim(level, cls, locked, ocls, lcls, c)
    ensures Reduction(level, cls, locked, ocls, lcls, sat, counts.llocked, percentage, del)
    ensures lcollect == 0 <==> forall c :: c in del && c in lcls ==> !IsLarge(cls, c)
  {
    hide Unlocked, Victim, Satisfied, Share, Candidates, Reduction, IsLarge;
    del := {};
    if sat {
      del := MarkSatisfied(level, cls, locked, ocls);
    }
    var resolved := new Cid[counts.nlclauses - counts.llocked];
    var more, rhead;
    more, lcollect, rhead := MarkLearned(level, cls, locked, lcls, sat, resolved);
    Arrange(resolved, rhead);
    var target := Share(percentage, counts.nlclauses - lcollect + 1);
    if target >= rhead {
      target := rhead;
    }
    ghost var S := del + more;
    del, lcollect := MarkFirst(resolved, target, del + more, lcollect);
    ghost var arranged := resolved[..rhead];
    assert (set i | 0 <= i < target :: resolved[i]) == (set i | 0 <= i < target :: arranged[i]);
    Chosen(level, cls, locked, ocls, lcls, sat, counts.llocked, percentage, arranged, target, S, more, del);
  }

  /** The first of the arranged candidates join the satisfied clauses. */
  lemma Chosen(level: map<Lit, nat>, cls: map<Cid, Clause>, locked: set<Cid>, ocls: seq<Cid>, lcls: seq<Cid>, sat: bool,
               llocked: nat, percentage: nat, arranged: seq<Cid>, target: nat, S: set<Cid>, more: set<Cid>,
               del: set<Cid>)
    requires NoDup(lcls) && forall c :: c in ocls ==> c !in lcls
    requires more == if sat then Satisfied(level, cls, locked, lcls) else {}
    requires S == (if sat then Satisfied(level, cls, locked, ocls) else {}) + more
    requires multiset(arranged) == multiset(Candidates(level, cls, locked, lcls, sat))
    requires var share := Share(percentage, llocked + |arranged| + 1);
      target == if share >= |arranged| then |arranged| else share
    requires del == S + (set i | 0 <= i < target :: arranged[i])
    ensures Reduction(level, cls, locked, ocls, lcls, sat, llocked, percentage, del)
    ensures forall c :: c in del ==> Victim(level, cls, locked, ocls, lcls, c)
    ensures (target == 0 && forall c :: c in more ==> !IsLarge(cls, c)) <==>
      forall c :: c in del && c in lcls ==> !IsLarge(cls, c)
  {
    hide *;
    var C := Candidates(level, cls, locked, lcls, sat);
    var first := set i | 0 <= i < target :: arranged[i];
    CandidatesAre(level, cls, locked, lcls, sat);
    Arranged(C, arranged, target);
    ChosenNew(level, cls, locked, ocls, lcls, sat, C, S, first);
    ReductionIs(level, cls, locked, ocls, lcls, sat, llocked, percentage, S, first, del);
    VictimsAre(level, cls, locked, ocls, lcls, sat, C, S, first);
    LearnedGone(level, cls, locked, ocls, lcls, sat, C, S, more, first);
  }

  lemma ChosenNew(level: map<Lit, nat>, cls: map<Cid, Clause>, locked: set<Cid>, ocls: seq<Cid>, lcls: seq<Cid>,
                  sat: bool,
                  C: seq<Cid>, S: set<Cid>, first: set<Cid>)
    requires (forall c :: c in ocls ==> c !in lcls) && AreCandidates(level, cls, locked, lcls, sat, C)
    requires S == if sat then Satisfied(level, cls, locked, ocls) + Satisfied(level, cls, locked, lcls) else {}
    requires forall c :: c in first ==> c in C
    ensures |S + first| == |S| + |first|
  {
    hide TopSatisfied;
    assert S !! first;
  }

  lemma ReductionIs(level: map<Lit, nat>, cls: map<Cid, Clause>, locked: set<Cid>, ocls: seq<Cid>, lcls: seq<Cid>,
                    sat: bool,
                    llocked: nat, percentage: nat, S: set<Cid>, first: set<Cid>, del: set<Cid>)
    requires S == if sat then Satisfied(level, cls, locked, ocls) + Satisfied(level, cls, locked, lcls) else {}
    requires var C := Candidates(level, cls, locked, lcls, sat);
      var share := Share(percentage, llocked + |C| + 1);
      (forall c :: c in first ==> c in C) && |first| == if share >= |C| then |C| else share
    requires del == S + first && |del| == |S| + |first|
    ensures Reduction(level, cls, locked, ocls, lcls, sat, llocked, percentage, del)
  {
    hide Candidates, Satisfied, Share;
  }

  lemma VictimsAre(level: map<Lit, nat>, cls: map<Cid, Clause>, locked: set<Cid>, ocls: seq<Cid>, lcls: seq<Cid>,
                   sat: bool,
                   C: seq<Cid>, S: set<Cid>, first: set<Cid>)
    requires AreCandidates(level, cls, locked, lcls, sat, C)
    requires S == if sat then Satisfied(level, cls, locked, ocls) + Satisfied(level, cls, locked, lcls) else {}
    requires forall c :: c in first ==> c in C
    ensures forall c :: c in S + first ==> Victim(level, cls, locked, ocls, lcls, c)
  {
    hide Satisfied, TopSatisfied;
  }

  lemma LearnedGone(level: map<Lit, nat>, cls: map<Cid, Clause>, locked: set<Cid>, ocls: seq<Cid>, lcls: seq<Cid>,
                    sat: bool,
                    C: seq<Cid>, S: set<Cid>, more: set<Cid>, first: set<Cid>)
    requires (forall c :: c in ocls ==> c !in lcls) && AreCandidates(level, cls, locked, lcls, sat, C)
    requires more == if sat then Satisfied(level, cls, locked, lcls) else {}
    requires S == (if sat then Satisfied(level, cls, locked, ocls) else {}) + more
    requires forall c :: c in first ==> c in C
    ensures (first == {} && forall c :: c in more ==> !IsLarge(cls, c)) <==>
      forall c :: c in S + first && c in lcls ==> !IsLarge(cls, c)
  {
    hide TopSatisfied, IsLarge;
    if first != {} {
      assert (forall c :: c !in first) ==> first == {};
      var c :| c in first;
      assert c in S + first;
    }
    forall c | c in more
      ensures c in S + first && c in lcls
    {
    }
  }

  /** The first elements of a permutation. */
  lemma Arranged(C: seq<Cid>, arranged: seq<Cid>, target: nat)
    requires multiset(arranged) == multiset(C) && NoDup(C) && target <= |arranged|
    ensures |arranged| == |C|
    ensures var first := set i | 0 <= i < target :: arranged[i];
      |first| == target && (forall c :: c in first ==> c in C) && (target == 0 <==> first == {})
  {
    SameElems(C, arranged);
    assert |multiset(arranged)| == |arranged| && |multiset(C)| == |C|;
    NoDupCounts(C);
    NoDupCounts(arranged);
    forall i | 0 <= i < target
      ensures arranged[i] in C
    {
      assert arranged[i] in arranged;
    }
    FirstSize(arranged, target);
  }

  lemma {:induction false} FirstSize(s: seq<Cid>, n: nat)
    requires NoDup(s) && n <= |s|
    ensures |(set i | 0 <= i < n :: s[i])| == n
  {
    if n > 0 {
      FirstSize(s, n - 1);
      assert (set i | 0 <= i < n :: s[i]) == (set i | 0 <= i < n - 1 :: s[i]) + {s[n - 1]};
    }
  }
}
