/** Storing a clause: on the clause stacks and watch lists, or as a pair of implications. */
module Storing {
  import opened Cnf
  import opened Trails
  import opened Inference
  import opened Watches
  import opened Links
  import opened Sorting
  import opened States
  import opened Counting

  function PushLit(impls: map<Lit, seq<Lit>>, a: Lit, b: Lit): map<Lit, seq<Lit>> {
    impls[a := At(impls, a) + [b]]
  }

  function StoreBinary(s: State, a: Lit, b: Lit): State {
    s.(D := s.D.(impls := PushLit(PushLit(s.D.impls, a, b), b, a)))
  }

  function StoreLarge(s: State, lits: Clause, learned: bool, connect: bool): State {
    s.(D := Connect(Tag(s.D, s.next, learned), s.next, SortLits(s.T.lev, s.T.dl, lits), connect),
       ocls := if learned then s.ocls else s.ocls + [s.next],
       lcls := if learned then s.lcls + [s.next] else s.lcls,
       next := s.next + 1,
       k := CountStore(s.k, |lits|, learned),
       mtcls := if lits == [] && s.mtcls.None? then Some(s.next) else s.mtcls)
  }

  /** The shrunken copy of a clause is not connected, and a shrunken binary clause is not kept. */
  function StoreState(s: State, lits: Clause, learned: bool, connect: bool): State {
    if |lits| == 2 then
      if connect then StoreBinary(s, lits[0], lits[1]) else s
    else
      StoreLarge(s, lits, learned, connect)
  }

  ghost function Widen(s: State, x: Exempt, lits: Clause): Exempt {
    if |lits| == 2 then x.(holeB := x.holeB + {(lits[0], lits[1]), (lits[1], lits[0])})
    else x.(hole := x.hole + {s.next})
  }

  ghost predicate Storable(s: State, lits: Clause) {
    && Entails(s.F, lits)
    && ClauseOk(s.n, lits)
    && (lits == [] ==> s.T.dl == 0)
  }

  lemma CoversGrow(F: set<Clause>, T: Trail, D: Store, E: Store)
    requires Covers(F, T, D)
    requires forall c :: c in D.watched && c !in D.learned && c in D.cls ==>
      c in E.watched && c !in E.learned && c in E.cls && SameLits(D.cls[c], E.cls[c])
    requires forall a, b :: b in At(D.impls, a) ==> b in At(E.impls, a)
    ensures Covers(F, T, E)
  {
    hide Tautology, TopSatisfied;
    forall C | C in F
      ensures Covered(T, E, C)
    {
      assert Covered(T, D, C);
      if StoredLarge(D, C) {
        var c :| c in D.watched && c !in D.learned && c in D.cls && SameLits(D.cls[c], C);
        assert c in E.watched && c !in E.learned && c in E.cls && SameLits(E.cls[c], C);
      }
      if StoredBinary(D.impls, C) {
        var a, b :| b in At(D.impls, a) && SameLits([a, b], C);
        assert b in At(E.impls, a) && SameLits([a, b], C);
      }
    }
  }

  // ---------- binary clauses ----------

  lemma PushBoth(impls: map<Lit, seq<Lit>>, a: Lit, b: Lit)
    ensures forall x, y :: y in At(PushLit(PushLit(impls, a, b), b, a), x) <==>
      y in At(impls, x) || (x == a && y == b) || (x == b && y == a)
  {
  }

  lemma BinaryStore(s: State, a: Lit, b: Lit)
    requires StoreInv(s) && Storable(s, [a, b])
    ensures StoreInv(StoreBinary(s, a, b))
  {
    hide ClausesOk, ListsOk, StacksOk, ClausesEntailed, ParkedTrue, Entails, At, PushLit, ImplsOk, ImplsEntailed;
    BinaryLists(s, a, b);
    BinaryImpls(s.n, s.F, s.D.impls, a, b);
  }

  lemma BinaryImpls(n: nat, F: set<Clause>, impls: map<Lit, seq<Lit>>, a: Lit, b: Lit)
    requires ImplsOk(n, impls) && ImplsEntailed(F, impls) && ClauseOk(n, [a, b]) && Entails(F, [a, b])
    ensures ImplsOk(n, PushLit(PushLit(impls, a, b), b, a)) && ImplsEntailed(F, PushLit(PushLit(impls, a, b), b, a))
  {
    hide Entails, At, PushLit;
    PushBoth(impls, a, b);
    assert a == [a, b][0] && b == [a, b][1];
    assert a in [a, b] && b in [a, b];
    EntailsSame(F, [a, b], [b, a]);
    var m := PushLit(PushLit(impls, a, b), b, a);
    forall x, y | y in At(m, x)
      ensures x != y && 1 <= Var(x) <= n && 1 <= Var(y) <= n && x in At(m, y) && Entails(F, [x, y])
    {
      if !(x == a && y == b) && !(x == b && y == a) {
        assert y in At(impls, x);
        assert x in At(impls, y);
      }
    }
  }

  lemma BinaryLists(s: State, a: Lit, b: Lit)
    requires ListsOk(s.D)
    ensures ListsOk(StoreBinary(s, a, b).D)
  {
    var E := StoreBinary(s, a, b).D;
    forall c | c in E.watched
      ensures Located(E, c)
    {
      assert Located(s.D, c);
    }
    forall l, c | c in At(E.htps, l)
      ensures HtpOk(E, l, c)
    {
      assert HtpOk(s.D, l, c);
    }
    forall l, c | c in At(E.dhtps, l)
      ensures DhtpOk(E, l, c)
    {
      assert DhtpOk(s.D, l, c);
    }
  }

  lemma BinaryWatch(s: State, x: Exempt, a: Lit, b: Lit)
    requires WatchInv(s, x)
    ensures WatchInv(StoreBinary(s, a, b), Widen(s, x, [a, b]))
  {
    hide WatchesOk, Covers, CopiesOk, At, PushLit, WatchOk;
    var t := StoreBinary(s, a, b);
    if s.mtcls.None? {
      PushBoth(s.D.impls, a, b);
      CoversGrow(s.F - x.uncovered, s.T, s.D, t.D) by {
        assert forall c :: c in s.D.cls ==> SameLits(s.D.cls[c], t.D.cls[c]);
      }
      CopiesMore(s.F, s.T, s.D, t.F, t.T, t.D);
    }
  }

  lemma BinaryInv(s: State, x: Exempt, a: Lit, b: Lit)
    requires Invariant(s, x) && Storable(s, [a, b])
    ensures Invariant(StoreBinary(s, a, b), Widen(s, x, [a, b]))
  {
    hide StoreInv, WatchInv, TrailOk, ReasonsOk, TrailSound, TopUnits, LockedBy, Falsified, QueueOk, Storable;
    BinaryStore(s, a, b);
    BinaryWatch(s, x, a, b);
    var t := StoreBinary(s, a, b);
    assert QueueOk(t) by { KeepQueue(s, t); }
    assert AssumptionsOk(t);
  }

  lemma KeepQueue(s: State, t: State)
    requires QueueOk(s)
    requires t.T == s.T && t.wdone == s.wdone && t.bdone == s.bdone && t.ttail == s.ttail && t.ttail2 == s.ttail2
    ensures QueueOk(t)
  {
  }

  // ---------- other clauses ----------

  lemma LargeTrail(s: State, lits: Clause, learned: bool, connect: bool)
    requires TrailInv(s) && StacksOk(s.D.cls, s.D.learned, s.ocls, s.lcls, s.next)
    ensures TrailInv(StoreLarge(s, lits, learned, connect))
  {
    hide TrailOk, TrailSound, LockedBy, IsReason;
    var t := StoreLarge(s, lits, learned, connect);
    assert s.next !in s.D.cls;
    forall l | l in s.T.rsn && s.T.rsn[l].Antecedent?
      ensures s.T.rsn[l].c in s.D.cls && s.T.rsn[l].c in t.D.cls
      ensures SameLits(s.D.cls[s.T.rsn[l].c], t.D.cls[s.T.rsn[l].c])
    {
      assert ReasonOk(s.T, s.D.cls, l);
    }
    ReasonsStore(s.T, s.D.cls, t.D.cls);
  }

  lemma StacksGrow(cls: map<Cid, Clause>, tags: set<Cid>, ocls: seq<Cid>, lcls: seq<Cid>, next: Cid, cl: Clause,
                   learned: bool)
    requires StacksOk(cls, tags, ocls, lcls, next)
    ensures StacksOk(cls[next := cl], if learned then tags + {next} else tags,
                     if learned then ocls else ocls + [next], if learned then lcls + [next] else lcls, next + 1)
  {
    assert next !in cls && next !in ocls && next !in lcls;
  }

  lemma LargeStore(s: State, lits: Clause, learned: bool, connect: bool)
    requires StoreInv(s) && Storable(s, lits) && |lits| != 2
    ensures StoreInv(StoreLarge(s, lits, learned, connect))
  {
    hide ImplsOk, ImplsEntailed, ListsOk, Entails, SortLits, StacksOk, NoDup, SameLits;
    var t := StoreLarge(s, lits, learned, connect);
    var cl := SortLits(s.T.lev, s.T.dl, lits);
    SortKeeps(s.T.lev, s.T.dl, lits);
    assert ClauseOk(s.n, cl) by { SameRange(s.n, lits, cl); }
    EntailsSame(s.F, lits, cl);
    FreshClause(s);
    TagLinks(s.D, s.next, learned);
    ConnectLinks(Tag(s.D, s.next, learned), s.next, cl, connect);
    StacksGrow(s.D.cls, s.D.learned, s.ocls, s.lcls, s.next, cl, learned);
    assert t.D.cls == s.D.cls[s.next := cl];
  }

  lemma SameRange(n: nat, c: Clause, d: Clause)
    requires ClauseOk(n, c) && SameLits(c, d) && NoDup(d)
    ensures ClauseOk(n, d)
  {
  }

  lemma FreshClause(s: State)
    requires StoreInv(s)
    ensures s.next !in s.D.cls && s.next !in s.D.watched && s.next !in s.D.learned
  {
    hide ClausesOk, ImplsOk, ImplsEntailed, ClausesEntailed;
    assert s.next in s.D.watched ==> Located(s.D, s.next);
  }

  lemma LargeWatch(s: State, x: Exempt, lits: Clause, learned: bool, connect: bool)
    requires StoreInv(s) && WatchInv(s, x) && |lits| != 2
    requires connect || lits == [] || IsCopy(s.F, s.T, lits)
    ensures WatchInv(StoreLarge(s, lits, learned, connect), Widen(s, x, lits))
  {
    hide StoreInv, ClauseWatched, BinsOk, SortLits, CopiesOk, IsCopy;
    var t := StoreLarge(s, lits, learned, connect);
    var x' := Widen(s, x, lits);
    FreshClause(s);
    if s.mtcls.None? {
      forall c | c in t.D.watched - x'.hole
        ensures c in t.D.cls && ClauseWatched(t.T, t.wdone, t.D.cls[c])
      {
        assert c in s.D.watched - x.hole;
      }
      assert Covers(t.F - x'.uncovered, t.T, t.D) by {
        hide Covers;
        CoversGrow(s.F - x.uncovered, s.T, s.D, t.D);
      }
      if t.mtcls.None? {
        LargeCopies(s, lits, learned, connect);
      }
    }
  }

  lemma LargeCopies(s: State, lits: Clause, learned: bool, connect: bool)
    requires CopiesOk(s.F, s.T, s.D) && lits != [] && (connect || IsCopy(s.F, s.T, lits))
    requires s.next !in s.D.watched
    ensures var t := StoreLarge(s, lits, learned, connect); CopiesOk(t.F, t.T, t.D)
  {
    hide IsCopy, SortLits;
    var t := StoreLarge(s, lits, learned, connect);
    SortKeeps(s.T.lev, s.T.dl, lits);
    forall c | c in t.D.cls && c !in t.D.watched
      ensures IsCopy(t.F, t.T, t.D.cls[c])
    {
      if c == s.next {
        CopyMore(s.F, s.T, lits, t.F, t.T, t.D.cls[c]);
      }
    }
  }

  lemma LargeTally(s: State, lits: Clause, learned: bool, connect: bool)
    requires StoreInv(s) && TallyOk(s) && s.next !in s.locked
    ensures TallyOk(StoreLarge(s, lits, learned, connect))
  {
    hide ClausesOk, ImplsOk, ImplsEntailed, ClausesEntailed, ListsOk, ParkedTrue, SortLits, CountersOf;
    SortKeeps(s.T.lev, s.T.dl, lits);
    StoreCounts(s.D.cls, s.locked, s.ocls, s.lcls, s.next, SortLits(s.T.lev, s.T.dl, lits), learned);
  }

  lemma NextUnlocked(s: State)
    requires TrailInv(s) && s.next !in s.D.cls
    ensures s.next !in s.locked
  {
    hide TrailOk, TrailSound, TopUnits, IsReason;
    forall l | l in s.T.rsn && s.T.rsn[l].Antecedent?
      ensures s.T.rsn[l].c in s.D.cls
    {
      assert ReasonOk(s.T, s.D.cls, l);
    }
  }

  lemma LargeInv(s: State, x: Exempt, lits: Clause, learned: bool, connect: bool)
    requires Invariant(s, x) && Storable(s, lits) && |lits| != 2
    requires connect || lits == [] || IsCopy(s.F, s.T, lits)
    ensures Invariant(StoreLarge(s, lits, learned, connect), Widen(s, x, lits))
  {
    hide TrailInv, WatchInv, StoreInv, Falsified, QueueOk, AssumptionsOk, SortLits, Entails, IsDecision, TallyOk;
    var t := StoreLarge(s, lits, learned, connect);
    assert TrailInv(t) by { LargeStacks(s); LargeTrail(s, lits, learned, connect); }
    assert StoreInv(t) by { LargeStore(s, lits, learned, connect); }
    LargeWatch(s, x, lits, learned, connect);
    KeepQueue(s, t);
    KeepAssumptions(s, t);
    FreshClause(s);
    NextUnlocked(s);
    LargeTally(s, lits, learned, connect);
    SortKeeps(s.T.lev, s.T.dl, lits);
  }

  lemma LargeStacks(s: State)
    requires StoreInv(s)
    ensures StacksOk(s.D.cls, s.D.learned, s.ocls, s.lcls, s.next)
  {
  }

  lemma KeepAssumptions(s: State, t: State)
    requires AssumptionsOk(s)
    requires t.T == s.T && t.als == s.als && t.alstail == s.alstail && t.adl == s.adl && t.n == s.n
    requires t.failed == s.failed
    ensures AssumptionsOk(t)
  {
  }

  /** A stored clause is entailed like the others; only its watches may still be wrong. */
  lemma StoreKeeps(s: State, x: Exempt, lits: Clause, learned: bool, connect: bool)
    requires Invariant(s, x) && Storable(s, lits)
    requires connect || lits == [] || IsCopy(s.F, s.T, lits)
    ensures Invariant(StoreState(s, lits, learned, connect), Widen(s, x, lits))
  {
    hide TrailInv, StoreInv, QueueOk, AssumptionsOk, ConflictOk, EmptyOk, StoreLarge, StoreBinary, Storable;
    if |lits| != 2 {
      hide WatchInv;
      LargeInv(s, x, lits, learned, connect);
    } else {
      assert lits == [lits[0], lits[1]];
      if connect {
        hide WatchInv;
        BinaryInv(s, x, lits[0], lits[1]);
      } else {
        WidenWatch(s, x, lits);
      }
    }
  }

  lemma WidenWatch(s: State, x: Exempt, lits: Clause)
    requires WatchInv(s, x)
    ensures WatchInv(s, Widen(s, x, lits))
  {
    hide ClauseWatched, WatchOk, CopiesOk;
  }
}
