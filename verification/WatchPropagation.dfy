/** Unit propagation over the watch list of one falsified literal. */
module WatchPropagation {
  import opened Cnf
  import opened Trails
  import opened Inference
  import opened Watches
  import opened Links
  import opened States
  import opened Counting
  import opened Steps
  import opened Storing
  import opened Originals
  import opened Forcing
  import opened Propagating

  ghost predicate Current(s: State, b: nat, w: Lit) {
    && s.mtcls.None? && s.conflict.NoClause?
    && s.wdone == b && s.ttail == b + 1 && s.bdone == s.ttail2
    && b < |s.T.lits| && s.T.lits[b] == -w && -w in s.T.lev && s.T.lev[-w] == s.T.dl
  }

  /** Every clause that is not on rest was put right for the falsity of w, the literal at position b. */
  ghost predicate Visited(s: State, b: nat, rest: seq<Cid>) {
    forall c :: c in s.D.watched && c !in rest ==> c in s.D.cls && ClauseWatched(s.T, b + 1, s.D.cls[c])
  }

  ghost predicate Visiting(s: State, b: nat, w: Lit, keep: seq<Cid>, rest: seq<Cid>) {
    && Current(s, b, w)
    && At(s.D.htps, w) == keep + rest
    && Visited(s, b, rest)
  }

  lemma ClauseAdvance(T: Trail, b: nat, c: Clause)
    requires Indexed(T) && b < |T.lits| && ClauseWatched(T, b, c)
    requires |c| >= 2 ==> -c[0] != T.lits[b] && -c[1] != T.lits[b]
    ensures ClauseWatched(T, b + 1, c)
  {
    hide WatchOk, Indexed;
    if |c| >= 2 {
      WatchAdvance(T, b, c[0], c[1]);
      WatchAdvance(T, b, c[1], c[0]);
    }
  }

  lemma OtherTrue(T: Trail, b: nat, w: Lit, o: Lit)
    requires Indexed(T) && Layered(T) && o in T.pos && -o !in T.pos
    requires -w in T.lev && T.lev[-w] == T.dl
    ensures WatchOk(T, b, w, o) && WatchOk(T, b, o, w)
  {
  }

  lemma InvWatched(s: State, c: Cid)
    requires Invariant(s, NOTHING) && c in s.D.watched
    ensures Located(s.D, c) && ClauseOk(s.n, s.D.cls[c]) && |s.D.cls[c]| != 2
    ensures s.mtcls.None? ==> ClauseWatched(s.T, s.wdone, s.D.cls[c])
  {
    hide TrailInv, QueueOk, AssumptionsOk, ConflictOk, EmptyOk;
    hide ImplsOk, ClausesEntailed, ImplsEntailed, StacksOk, ParkedTrue;
    hide HtpOk, DhtpOk, AllNoDup, ClauseWatched, ClauseOk, BinsOk, Covers, CopiesOk;
    assert Located(s.D, c);
  }

  lemma InvParked(s: State, l: Lit, c: Cid)
    requires Invariant(s, NOTHING) && c in At(s.D.dhtps, l)
    ensures l in s.T.pos
  {
    hide TrailInv, QueueOk, AssumptionsOk, ConflictOk, EmptyOk, ImplsOk;
    hide ClausesEntailed, ImplsEntailed, StacksOk, ListsOk, WatchInv;
  }

  lemma VisitStart(s: State, t: State, b: nat)
    requires Invariant(s, NOTHING) && Synced(s) && s.ttail == b < |s.T.lits| && s.conflict.NoClause? && s.mtcls.None?
    requires t == s.(ttail := b + 1)
    ensures Invariant(t, NOTHING)
    ensures Visiting(t, b, -s.T.lits[b], [], At(s.D.htps, -s.T.lits[b]))
  {
    hide Invariant, WatchOk, At, Located, ClauseWatched, Indexed, Layered;
    var w := -s.T.lits[b];
    InvParts(s);
    InvQueue(s);
    QueueLevel(s, b);
    MarksKeep(s, t) by { assert WatchInv(t, NOTHING); }
    assert -w == s.T.lits[b];
    forall c | c in t.D.watched && c !in At(s.D.htps, w)
      ensures c in t.D.cls && ClauseWatched(t.T, b + 1, t.D.cls[c])
    {
      NotListed(s, b, w, c);
    }
    assert [] + At(s.D.htps, w) == At(s.D.htps, w);
  }

  /** A watched clause that is not on the list of the falsified literal needs no visit. */
  lemma NotListed(s: State, b: nat, w: Lit, c: Cid)
    requires Invariant(s, NOTHING) && s.mtcls.None? && s.wdone == b < |s.T.lits|
    requires s.T.lits[b] == -w && -w in s.T.lev && s.T.lev[-w] == s.T.dl
    requires c in s.D.watched && c !in At(s.D.htps, w)
    ensures c in s.D.cls && ClauseWatched(s.T, b + 1, s.D.cls[c])
  {
    hide Invariant, At, ClauseOk, Indexed, Layered, WatchOk;
    InvParts(s);
    InvWatched(s, c);
    var cl := s.D.cls[c];
    if |cl| >= 2 && (cl[0] == w || cl[1] == w) {
      var o := OtherWatch(cl, w);
      InvClauseOk(s, c);
      assert LinkOk(s.D, c, w, o);
      InvParked(s, o, c);
      OtherTrue(s.T, b + 1, w, o);
    } else {
      ClauseAdvance(s.T, b, cl);
    }
  }

  lemma InvClauseOk(s: State, c: Cid)
    requires Invariant(s, NOTHING) && c in s.D.watched && c in s.D.cls && |s.D.cls[c]| >= 2
    ensures s.D.cls[c][0] != s.D.cls[c][1]
  {
    InvWatched(s, c);
  }

  lemma VisitEnd(s: State, b: nat, w: Lit, keep: seq<Cid>, t: State)
    requires Invariant(s, NOTHING) && Visiting(s, b, w, keep, [])
    requires t == s.(wdone := s.ttail)
    ensures Invariant(t, NOTHING) && Synced(t)
  {
    hide Invariant, TrailInv, StoreInv, At, ClauseWatched, BinsOk, Covers, CopiesOk;
    InvParts(s);
    assert WatchInv(t, NOTHING) by {
      forall c | c in t.D.watched - NOTHING.hole
        ensures c in t.D.cls && ClauseWatched(t.T, b + 1, t.D.cls[c])
      {
      }
    }
    MarksKeep(s, t);
  }

  // ---------- the clause at the front of the list ----------

  /** c is watched by w, and w has already lost its unit clauses: those have true literals. */
  lemma VisitFacts(s: State, b: nat, w: Lit, keep: seq<Cid>, c: Cid, rest: seq<Cid>)
    requires Invariant(s, NOTHING) && Visiting(s, b, w, keep, [c] + rest)
    ensures c in s.D.watched && c in s.D.cls && |s.D.cls[c]| >= 3 && IsWatch(s.D.cls[c], w)
    ensures s.D.cls[c][0] != s.D.cls[c][1] && ClauseOk(s.n, s.D.cls[c]) && Entails(s.F, s.D.cls[c])
    ensures At(s.D.htps, w) == keep + [c] + rest
    ensures -w in s.T.pos && w !in s.T.pos && s.T.pos[-w] == b
  {
    hide At, Indexed, Layered, Entails, Visited;
    assert keep + ([c] + rest) == keep + [c] + rest;
    assert (keep + [c] + rest)[|keep|] == c;
    assert c in At(s.D.htps, w);
    InvListed(s, w, c);
    InvWatched(s, c);
    InvParts(s);
    PositionOf(s.T, b);
    TrailKeys(s.T);
    assert -(-w) == w;
  }

  lemma PositionOf(T: Trail, b: nat)
    requires Indexed(T) && b < |T.lits|
    ensures T.lits[b] in T.pos && T.pos[T.lits[b]] == b
  {
  }

  lemma InvListed(s: State, w: Lit, c: Cid)
    requires Invariant(s, NOTHING) && c in At(s.D.htps, w)
    ensures c in s.D.watched && c in s.D.cls && IsWatch(s.D.cls[c], w) && Entails(s.F, s.D.cls[c])
  {
    hide TrailInv, QueueOk, AssumptionsOk, ConflictOk, EmptyOk, ImplsOk, ImplsEntailed, StacksOk, ParkedTrue, WatchInv;
    hide DhtpOk, AllNoDup, Located, ClauseOk, At, Entails;
    assert HtpOk(s.D, w, c);
  }

  /** The literals of c are put in another order and its links are changed. */
  ghost predicate Reshaped(s: State, t: State, c: Cid) {
    && c in s.D.watched && c in s.D.cls && |s.D.cls[c]| >= 3
    && t == s.(D := t.D)
    && c in t.D.cls && t.D.cls == s.D.cls[c := t.D.cls[c]]
    && |t.D.cls[c]| == |s.D.cls[c]| && SameLits(s.D.cls[c], t.D.cls[c]) && NoDup(t.D.cls[c])
    && t.D.watched == s.D.watched && t.D.learned == s.D.learned && t.D.impls == s.D.impls
    && ListsOk(t.D) && ParkedTrue(t.T, t.D.dhtps)
  }

  lemma ReshapedTrail(s: State, t: State, c: Cid)
    requires TrailInv(s) && Reshaped(s, t, c)
    ensures TrailInv(t)
  {
    hide TrailOk, TrailSound, LockedBy, IsReason, ListsOk, ParkedTrue, NoDup;
    forall l | l in s.T.rsn && s.T.rsn[l].Antecedent?
      ensures s.T.rsn[l].c in s.D.cls && s.T.rsn[l].c in t.D.cls
      ensures SameLits(s.D.cls[s.T.rsn[l].c], t.D.cls[s.T.rsn[l].c])
    {
      assert ReasonOk(s.T, s.D.cls, l);
    }
    ReasonsStore(s.T, s.D.cls, t.D.cls);
    assert TopUnits(t.T, t.D.cls);
  }

  lemma ReshapedStore(s: State, t: State, c: Cid)
    requires StoreInv(s) && Reshaped(s, t, c)
    ensures StoreInv(t)
  {
    hide ImplsOk, ImplsEntailed, ListsOk, ParkedTrue, Entails, NoDup, SameLits;
    SameRange(s.n, s.D.cls[c], t.D.cls[c]);
    EntailsSame(s.F, s.D.cls[c], t.D.cls[c]);
  }

  lemma ReshapedWatch(s: State, t: State, c: Cid)
    requires WatchInv(s, NOTHING) && Reshaped(s, t, c)
    requires s.mtcls.None? ==> ClauseWatched(t.T, t.wdone, t.D.cls[c])
    ensures WatchInv(t, NOTHING)
  {
    hide BinsOk, ListsOk, ParkedTrue, NoDup, ClauseWatched, CopiesOk;
    if s.mtcls.None? {
      CopiesMore(s.F, s.T, s.D, t.F, t.T, t.D);
      assert Covers(t.F - NOTHING.uncovered, t.T, t.D) by {
        hide Covers;
        CoversGrow(s.F - NOTHING.uncovered, s.T, s.D, t.D);
      }
    }
  }

  lemma ReshapedKeeps(s: State, t: State, c: Cid)
    requires Invariant(s, NOTHING) && Reshaped(s, t, c) && s.conflict.NoClause?
    requires s.mtcls.None? ==> ClauseWatched(t.T, t.wdone, t.D.cls[c])
    ensures Invariant(t, NOTHING)
  {
    hide TrailInv, StoreInv, WatchInv, QueueOk, AssumptionsOk, ClauseWatched;
    hide ListsOk, ParkedTrue, NoDup, SameLits, CountersOf;
    ResizedCounts(s.D.cls, t.D.cls, s.locked, s.ocls, s.lcls);
    ReshapedTrail(s, t, c);
    ReshapedStore(s, t, c);
    ReshapedWatch(s, t, c);
    KeepQueue(s, t);
    KeepAssumptions(s, t);
  }

  lemma VisitSwap(s: State, b: nat, w: Lit, keep: seq<Cid>, c: Cid, rest: seq<Cid>, t: State)
    requires Invariant(s, NOTHING) && Visiting(s, b, w, keep, [c] + rest)
    requires c in s.D.cls && |s.D.cls[c]| >= 2 && s.D.cls[c][1] == w
    requires t == s.(D := s.D.(cls := s.D.cls[c := Swap(s.D.cls[c])]))
    ensures Invariant(t, NOTHING) && Visiting(t, b, w, keep, [c] + rest)
  {
    hide Invariant, At, ListsOk, ClauseWatched, Swap, ParkedTrue, Entails;
    VisitFacts(s, b, w, keep, c, rest);
    InvWatched(s, c);
    SwapSame(s.n, s.D.cls[c]);
    InvStore(s);
    SwapLinks(s.D, c);
    SwapWatched(s.T, s.wdone, s.D.cls[c]);
    assert Reshaped(s, t, c);
    ReshapedKeeps(s, t, c);
    assert forall k :: k !in [c] + rest ==> k != c;
  }

  lemma SwapWatched(T: Trail, b: nat, c: Clause)
    requires |c| >= 2
    ensures |Swap(c)| == |c|
    ensures ClauseWatched(T, b, Swap(c)) <==> ClauseWatched(T, b, c)
  {
  }

  lemma InvStore(s: State)
    requires Invariant(s, NOTHING)
    ensures ListsOk(s.D) && ParkedTrue(s.T, s.D.dhtps) && ClausesOk(s.n, s.D.cls)
  {
    hide TrailInv, QueueOk, AssumptionsOk, ConflictOk, EmptyOk, WatchInv, ListsOk, ParkedTrue, ClausesOk;
  }

  ghost predicate Facing(s: State, b: nat, w: Lit, keep: seq<Cid>, c: Cid, rest: seq<Cid>) {
    && Visiting(s, b, w, keep, [c] + rest)
    && c in s.D.cls && |s.D.cls[c]| >= 2 && s.D.cls[c][0] == w
  }

  lemma VisitPass(s: State, b: nat, w: Lit, keep: seq<Cid>, c: Cid, rest: seq<Cid>)
    requires Invariant(s, NOTHING) && Facing(s, b, w, keep, c, rest)
    requires s.D.cls[c][1] in s.T.pos
    ensures Visiting(s, b, w, keep + [c], rest)
  {
    hide Invariant, At, ClauseWatched, Indexed, Layered, Entails;
    VisitFacts(s, b, w, keep, c, rest);
    PassWatched(s, b, w, s.D.cls[c]);
    ListMoves(keep, c, rest);
  }

  lemma ListMoves(keep: seq<Cid>, c: Cid, rest: seq<Cid>)
    ensures keep + ([c] + rest) == keep + [c] + rest
    ensures forall k :: k !in rest && k != c ==> k !in [c] + rest
  {
  }

  lemma PassWatched(s: State, b: nat, w: Lit, cl: Clause)
    requires Invariant(s, NOTHING) && Current(s, b, w)
    requires |cl| >= 2 && cl[0] == w && cl[1] in s.T.pos
    ensures ClauseWatched(s.T, b + 1, cl)
  {
    hide Invariant, WatchOk, Indexed, Layered;
    InvParts(s);
    OtherTrue(s.T, b + 1, w, cl[1]);
  }

  lemma VisitPark(s: State, b: nat, w: Lit, keep: seq<Cid>, c: Cid, rest: seq<Cid>, t: State)
    requires Invariant(s, NOTHING) && Facing(s, b, w, keep, c, rest)
    requires s.D.cls[c][1] in s.T.pos
    requires t == s.(D := Park(s.D, w, s.D.cls[c][1], c, keep, rest))
    ensures Invariant(t, NOTHING) && Visiting(t, b, w, keep, rest)
  {
    hide Invariant, At, ClauseWatched, Indexed, Layered, Entails, ListsOk, ParkedTrue, Push;
    var o := s.D.cls[c][1];
    VisitFacts(s, b, w, keep, c, rest);
    InvStore(s);
    InvWatched(s, c);
    ParkLinks(s.D, w, o, c, keep, rest);
    ParkStays(s, o, c);
    assert t.D.cls == s.D.cls[c := t.D.cls[c]];
    assert SameLits(s.D.cls[c], t.D.cls[c]);
    assert Reshaped(s, t, c);
    ReshapedKeeps(s, t, c);
    PassWatched(s, b, w, s.D.cls[c]);
    ListMoves(keep, c, rest);
    AtSet(s.D.htps, w, keep + rest);
  }

  lemma AtSet<T>(m: map<Lit, seq<T>>, l: Lit, s: seq<T>)
    ensures At(m[l := s], l) == s
    ensures forall k :: k != l ==> At(m[l := s], k) == At(m, k)
  {
  }

  lemma ParkStays(s: State, o: Lit, c: Cid)
    requires ParkedTrue(s.T, s.D.dhtps) && o in s.T.pos
    ensures ParkedTrue(s.T, Push(s.D.dhtps, o, c))
  {
  }

  /** The clause found a literal f that is not false and is watched by it from now on. */
  lemma VisitMove(s: State, b: nat, w: Lit, keep: seq<Cid>, c: Cid, rest: seq<Cid>, cl: Clause, t: State)
    requires Invariant(s, NOTHING) && Facing(s, b, w, keep, c, rest)
    requires s.D.cls[c][1] !in s.T.pos
    requires |cl| == |s.D.cls[c]| && SameLits(s.D.cls[c], cl) && NoDup(cl)
    requires cl[1] == s.D.cls[c][1] && cl[0] != w && -cl[0] !in s.T.pos
    requires t == s.(D := Rewatch(s.D, w, c, cl, keep, rest))
    ensures Invariant(t, NOTHING) && Visiting(t, b, w, keep, rest)
  {
    hide Invariant, At, ClauseWatched, Indexed, Layered, Entails, ListsOk, ParkedTrue, Push, Located;
    VisitFacts(s, b, w, keep, c, rest);
    InvStore(s);
    InvWatched(s, c);
    if c in At(s.D.dhtps, w) {
      InvParked(s, w, c);
    }
    RewatchLinks(s.D, w, c, cl, keep, rest);
    MoveWatched(s, b, w, c, cl);
    assert t.D.cls == s.D.cls[c := t.D.cls[c]];
    assert Reshaped(s, t, c);
    ReshapedKeeps(s, t, c);
    ListMoves(keep, c, rest);
    MoveLists(s.D.htps, w, cl[0], c, keep + rest);
  }

  lemma MoveLists(htps: map<Lit, seq<Cid>>, w: Lit, f: Lit, c: Cid, s: seq<Cid>)
    requires f != w
    ensures At(Push(htps[w := s], f, c), w) == s
  {
  }

  lemma MoveWatched(s: State, b: nat, w: Lit, c: Cid, cl: Clause)
    requires Invariant(s, NOTHING) && Current(s, b, w)
    requires c in s.D.watched && c in s.D.cls && |s.D.cls[c]| >= 2 && s.D.cls[c][0] == w
    requires s.D.cls[c][0] != s.D.cls[c][1]
    requires w !in s.T.pos && |cl| >= 2 && cl[1] == s.D.cls[c][1] && -cl[0] !in s.T.pos
    ensures ClauseWatched(s.T, b, cl) && ClauseWatched(s.T, b + 1, cl)
  {
    hide Invariant, Layered, Located, ClauseOk, Indexed;
    InvParts(s);
    InvWatched(s, c);
    var o := cl[1];
    assert WatchOk(s.T, b, o, w);
    assert -o != s.T.lits[b];
    WatchAdvance(s.T, b, o, w);
  }

  lemma VisitConflict(s: State, b: nat, w: Lit, keep: seq<Cid>, c: Cid, rest: seq<Cid>, t: State)
    requires Invariant(s, NOTHING) && Facing(s, b, w, keep, c, rest)
    requires forall l :: l in s.D.cls[c] ==> -l in s.T.pos
    requires t == s.(conflict := Large(c))
    ensures Invariant(t, NOTHING)
  {
    hide TrailInv, StoreInv, WatchInv, QueueOk, AssumptionsOk, Entails, At, ClauseOk, Visited;
    VisitFacts(s, b, w, keep, c, rest);
    RestKeeps(s, t);
    ConflictWatch(s, t);
    var cl := s.D.cls[c];
    assert cl[0] in cl && -cl[0] in s.T.lev && s.T.lev[-cl[0]] == s.T.dl;
  }

  lemma VisitCan(s: State, b: nat, w: Lit, keep: seq<Cid>, c: Cid, rest: seq<Cid>)
    requires Invariant(s, NOTHING) && Facing(s, b, w, keep, c, rest)
    requires Unassigned(s.T, s.D.cls[c][1])
    requires forall l :: l in s.D.cls[c] && l != s.D.cls[c][1] ==> -l in s.T.pos
    ensures CanForce(s, s.D.cls[c][1], Antecedent(c))
  {
    hide Invariant, Entails, At, Layered, IsReason, Visited, Indexed, Located, ClauseWatched, CanForce, Unassigned;
    VisitFacts(s, b, w, keep, c, rest);
    assert Indexed(s.T) by {
      InvParts(s);
    }
    TrailKeys(s.T);
    WatchForces(s, c, w);
  }

  lemma WatchForces(s: State, c: Cid, w: Lit)
    requires Indexed(s.T) && c in s.D.cls && ClauseOk(s.n, s.D.cls[c]) && |s.D.cls[c]| >= 2
    requires var cl := s.D.cls[c]; cl[0] == w && cl[1] != w && Unassigned(s.T, cl[1])
    requires forall l :: l in s.D.cls[c] && l != s.D.cls[c][1] ==> -l in s.T.pos
    requires -w in s.T.lev && s.T.lev[-w] == s.T.dl
    ensures CanForce(s, s.D.cls[c][1], Antecedent(c))
  {
    hide IsReason, Indexed;
    var cl := s.D.cls[c];
    assert cl[1] in cl && cl[0] in cl;
    OnlyReason(s.T, cl, cl[1], w, Antecedent(c));
  }

  lemma OnlyReason(T: Trail, R: Clause, o: Lit, w: Lit, r: Reason)
    requires Indexed(T) && Unassigned(T, o) && o in R && w in R && w != o
    requires -w in T.lev && T.lev[-w] == T.dl
    requires forall l :: l in R && l != o ==> -l in T.pos
    ensures IsReason(Extend(T, o, r), o, R)
  {
    var U := Extend(T, o, r);
    assert -w in U.lev && U.lev[-w] == U.lev[o];
  }

  lemma ForcedCurrent(s: State, b: nat, w: Lit, o: Lit, t: State)
    requires Current(s, b, w) && OneMore(s, t, o) && o != w && o != -w
    requires s.T.pos.Keys == s.T.lev.Keys
    ensures Current(t, b, w)
    ensures At(t.D.htps, w) == At(s.D.htps, w)
    ensures o in t.T.pos
  {
    hide At;
  }

  lemma ForcedVisited(s: State, b: nat, c: Cid, rest: seq<Cid>, o: Lit, t: State)
    requires Visited(s, b, [c] + rest) && OneMore(s, t, o) && Indexed(s.T) && b < |s.T.lits| && o !in s.T.pos
    requires t.T.lev.Keys == t.T.pos.Keys
    requires c in t.D.cls && ClauseWatched(t.T, b + 1, t.D.cls[c])
    ensures Visited(t, b, rest)
  {
    hide ClauseWatched, At, Indexed;
    ListMoves([], c, rest);
    forall k | k in t.D.watched && k !in rest
      ensures k in t.D.cls && ClauseWatched(t.T, b + 1, t.D.cls[k])
    {
      if k in s.D.watched {
        if k != c {
          OneMoreClause(s, t, o, b + 1, s.D.cls[k]);
        }
      } else {
        UnitWatched(t.T, b + 1, o);
      }
    }
  }

  lemma VisitForced(s: State, b: nat, w: Lit, keep: seq<Cid>, c: Cid, rest: seq<Cid>, t: State)
    requires Invariant(s, NOTHING) && Facing(s, b, w, keep, c, rest)
    requires Unassigned(s.T, s.D.cls[c][1])
    requires Invariant(t, NOTHING) && OneMore(s, t, s.D.cls[c][1])
    ensures Visiting(t, b, w, keep + [c], rest)
  {
    hide Invariant, TrailInv, StoreInv, WatchInv, QueueOk, At, ClauseWatched;
    hide Indexed, Layered, Entails, ClauseOk, OneMore, Visited, Current;
    var o := s.D.cls[c][1];
    VisitFacts(s, b, w, keep, c, rest);
    InvParts(s);
    InvParts(t);
    TrailKeys(s.T);
    TrailKeys(t.T);
    ListMoves(keep, c, rest);
    ForcedCurrent(s, b, w, o, t);
    OneMoreStays(s, t, o, c);
    PassWatched(t, b, w, t.D.cls[c]);
    CurrentBound(s, b, w);
    ForcedVisited(s, b, c, rest, o, t);
  }

  lemma CurrentBound(s: State, b: nat, w: Lit)
    requires Current(s, b, w)
    ensures b < |s.T.lits|
  {
  }

  lemma OneMoreStays(s: State, t: State, l: Lit, c: Cid)
    requires OneMore(s, t, l) && c in s.D.cls
    ensures c in t.D.cls && t.D.cls[c] == s.D.cls[c]
  {
  }

  lemma UnitWatched(T: Trail, b: nat, l: Lit)
    requires l in T.lev && T.lev[l] == 0
    ensures ClauseWatched(T, b, [l])
  {
  }

  lemma OneMoreClause(s: State, t: State, l: Lit, b: nat, c: Clause)
    requires Indexed(s.T) && OneMore(s, t, l) && b <= |s.T.lits| && l !in s.T.pos
    requires ClauseWatched(s.T, b, c)
    ensures ClauseWatched(t.T, b, c)
  {
    hide WatchOk;
    if |c| >= 2 {
      OneMoreWatch(s, t, l, b, c[0], c[1]);
      OneMoreWatch(s, t, l, b, c[1], c[0]);
    } else if |c| == 1 {
      var k := c[0];
      assert k in s.T.pos;
    }
  }
}
