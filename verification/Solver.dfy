/** The solver object: its fields, updated in place by the steps of the search. */
module Solver {
  import opened Cnf
  import opened Trails
  import opened Equivalence
  import opened Quiescence
  import opened Watches
  import opened Links
  import opened Sorting
  import opened States
  import opened Counting
  import opened Steps
  import opened Storing
  import opened Undoing
  import opened Adding
  import opened Originals
  import opened Analysis
  import opened Minimizing
  import opened Backtracking
  import opened Forcing
  import opened Propagating
  import opened WatchPropagation
  import opened Deciding
  import opened Failing
  import opened Verdicts
  import opened Collecting
  import opened Progress
  import opened Searching
  import opened Importing
  import opened Rounds
  import Autarky
  import Heap
  import SoftFloat
  import Stride

  datatype ApiState = READY | SAT | UNSAT | UNKNOWN

  /** How a literal to decide was found: it is an assumption, it has the greatest variable, or its variable was met on a
      random walk. */
  datatype Choice = Assumption | Scored | Walked(start: nat, drawn: nat)

  function FreeVars(n: nat, level: map<Lit, nat>): seq<bool> {
    seq(n + 1, i requires 0 <= i => i > 0 && Undef(level, i))
  }

  /** v is an unassigned variable found that way; it is the greatest one if the heap is ordered. */
  ghost predicate ChosenBy(n: nat, level: map<Lit, nat>, rank: map<nat, Heap.Rank>, ordered: bool, v: nat,
                           how: Choice)
  {
    match how
    case Assumption => false
    case Scored => ordered ==> forall u :: 1 <= u <= n && Undef(level, u) && u != v ==> Heap.Greater(rank, v, u)
    case Walked(start, drawn) => Stride.Drawn(FreeVars(n, level), n, start, drawn, v)
  }

  class PicoSAT {
    var maxVar: nat

    // the trail with the level and reason of its literals; a literal is true iff it is on the trail
    var t: Trail
    var ttail: nat
    var ttail2: nat
    ghost var wdone: nat
    ghost var bdone: nat

    // the clauses and their lists
    var d: Store
    var locked: set<Cid>
    var counts: Counters
    var oclauses: seq<Cid>
    var lclauses: seq<Cid>
    var nextCid: Cid
    var conflict: ClauseRef
    var mtcls: Option<Cid>
    ghost var F: set<Clause>

    // the assumptions
    var als: seq<Lit>
    var alstail: nat
    var adecidelevel: nat
    var failedAssumption: Option<Lit>

    // the interface
    var state: ApiState
    var added: seq<Lit>             // literals of the clause that is being added
    var extracted: bool             // the variables of all failed assumptions were collected
    var failedVars: set<nat>

    // the saved original clauses
    var saveorig: bool
    var soclauses: seq<int>
    var partial: bool               // a partial assignment was computed
    var partials: set<nat>          // the variables it consists of

    // counters and limits of the search
    var propagations: nat
    var conflicts: nat
    var decisions: nat
    var lreduce: nat
    var lreduceadjustcnt: nat
    var lreduceadjustinc: nat
    var lsimplify: nat
    var fsimplify: nat
    var isimplify: nat
    var lubycnt: nat
    var lrestart: nat
    var lpropagations: Option<nat>
    var interruptible: bool         // an interrupt function is installed

    const heap: Heap.VarHeap        // the variables to decide

    ghost function St(): State
      reads `maxVar, `F, `t, `d, `locked, `oclauses, `lclauses, `nextCid, `wdone, `bdone, `ttail, `ttail2
      reads `conflict, `mtcls, `als, `alstail, `adecidelevel, `failedAssumption, `counts
    {
      State(maxVar, F, t, d, locked, oclauses, lclauses, nextCid, wdone, bdone, ttail, ttail2,
            conflict, mtcls, als, alstail, adecidelevel, failedAssumption, counts)
    }

    lemma StParts()
      ensures St().n == maxVar && St().T == t && St().D == d && St().k == counts
      ensures St().ttail == ttail && St().ttail2 == ttail2 && St().conflict == conflict && St().mtcls == mtcls
      ensures St().als == als && St().alstail == alstail && St().failed == failedAssumption
    {
    }

    ghost function Now(): Config
      reads this
    {
      Config(St(), isimplify, fsimplify, lsimplify, lubycnt, lrestart, lreduce, propagations, conflicts, decisions)
    }

    /** Every unassigned variable is on the heap, which is ordered unless variables collapsed. */
    ghost predicate HeapOk()
      reads `t, `maxVar, heap
    {
      heap.Valid() && heap.maxVar == maxVar && heap.Waiting(t.lev)
    }

    lemma HeapParts()
      requires HeapOk()
      ensures heap.Valid() && heap.maxVar == maxVar && heap.Waiting(t.lev)
    {
    }

    lemma HeapRank(v: nat)
      requires HeapOk() && 1 <= v <= maxVar
      ensures v in heap.rank
    {
    }

    lemma HeapMembers() returns (waiting: set<nat>)
      requires HeapOk()
      ensures heap.Holding(maxVar, waiting) && forall v :: 1 <= v <= maxVar && Undef(t.lev, v) ==> v in waiting
    {
      waiting := set v | v in heap.pos && heap.OnHeap(v);
    }

    lemma MembersOk(waiting: set<nat>)
      requires heap.Holding(maxVar, waiting) && forall v :: 1 <= v <= maxVar && Undef(t.lev, v) ==> v in waiting
      ensures HeapOk() && heap.Valid() && heap.maxVar == maxVar && heap.Waiting(t.lev)
    {
    }

    lemma HeapStays(level: map<Lit, nat>)
      requires heap.Valid() && heap.maxVar == maxVar && heap.Waiting(level) && forall l :: l in level ==> l in t.lev
      ensures HeapOk()
    {
      heap.WaitingMore(level, t.lev);
    }

    // ---------- assigning ----------

    method Assign(lit: Lit, r: Reason)
      requires HeapOk()
      modifies `t
      ensures St() == old(St()).(T := Extend(old(t), lit, r)) && HeapOk()
    {
      heap.WaitingMore(t.lev, Extend(t, lit, r).lev);
      t := Extend(t, lit, r);
    }

    method SetReason(lit: Lit, r: Reason)
      requires HeapOk()
      modifies `t
      ensures t == old(t).(rsn := old(t).rsn[lit := r]) && HeapOk()
    {
      t := t.(rsn := t.rsn[lit := r]);
    }

    /** A variable with a value at top level gets the greatest score. */
    method FixVar(v: nat)
      requires HeapOk() && 1 <= v <= maxVar
      modifies heap`rank, heap`heap, heap`pos
      ensures HeapOk() && heap.rank == old(heap.rank)[v := old(heap.rank)[v].(score := SoftFloat.INFFLT)]
    {
      heap.FixVar(v);
    }

    /** Appends b to the implications of a. */
    method PushImplication(a: Lit, b: Lit)
      modifies `d
      ensures d == old(d).(impls := PushLit(old(d).impls, a, b))
    {
      d := d.(impls := d.impls[a := At(d.impls, a) + [b]]);
    }

    /** Pushes both literals of a binary clause on the other's implications. */
    method ConnectBinary(a: Lit, b: Lit)
      modifies `d
      ensures d == old(d).(impls := PushLit(PushLit(old(d).impls, a, b), b, a))
    {
      hide PushLit;
      PushImplication(a, b);
      PushImplication(b, a);
    }

    /** Puts clause c in front of the list of its watch l. */
    method ConnectHeadTail(l: Lit, c: Cid)
      modifies `d
      ensures d == old(d).(htps := Push(old(d).htps, l, c))
    {
      d := d.(htps := d.htps[l := [c] + At(d.htps, l)]);
    }

    method ConnectClause(c: Cid, cl: Clause)
      requires c in d.cls && d.cls[c] == cl
      modifies `d
      ensures d == Connect(old(d), c, cl, true)
    {
      hide Push;
      assert d.cls == d.cls[c := cl];
      if |cl| > 0 {
        d := d.(watched := d.watched + {c});
        ConnectHeadTail(cl[0], c);
        if |cl| > 1 {
          ConnectHeadTail(cl[1], c);
        }
      }
    }

    /** Allocates a clause and pushes it on its stack. */
    method NewClause(cl: Clause, learned: bool)
      modifies `d, `oclauses, `lclauses, `nextCid
      ensures var D := Tag(old(d), old(nextCid), learned); d == D.(cls := D.cls[old(nextCid) := cl])
      ensures nextCid == old(nextCid) + 1
      ensures oclauses == if learned then old(oclauses) else old(oclauses) + [old(nextCid)]
      ensures lclauses == if learned then old(lclauses) + [old(nextCid)] else old(lclauses)
    {
      d := d.(cls := d.cls[nextCid := cl]);
      if learned {
        d := d.(learned := d.learned + {nextCid});
        lclauses := lclauses + [nextCid];
      } else {
        oclauses := oclauses + [nextCid];
      }
      nextCid := nextCid + 1;
    }

    /** Counts a new clause if it is large. */
    method CountClause(size: nat, learned: bool)
      modifies `counts
      ensures counts == CountStore(old(counts), size, learned)
    {
      if learned {
        if size > 2 {
          counts := counts.(nlclauses := counts.nlclauses + 1, llits := counts.llits + size);
        }
      } else if size > 2 {
        counts := counts.(noclauses := counts.noclauses + 1, olits := counts.olits + size);
      }
    }

    method StoreLargeClause(lits: Clause, learned: bool, connect: bool)
      modifies `d, `oclauses, `lclauses, `nextCid, `mtcls, `counts
      ensures d == Connect(Tag(old(d), old(nextCid), learned), old(nextCid), SortLits(t.lev, t.dl, lits), connect)
      ensures oclauses == if learned then old(oclauses) else old(oclauses) + [old(nextCid)]
      ensures lclauses == if learned then old(lclauses) + [old(nextCid)] else old(lclauses)
      ensures nextCid == old(nextCid) + 1 && counts == CountStore(old(counts), |lits|, learned)
      ensures mtcls == if lits == [] && old(mtcls).None? then Some(old(nextCid)) else old(mtcls)
    {
      hide SortLits, Push, Tag;
      var c := nextCid;
      var cl := SortLits(t.lev, t.dl, lits);
      SortKeeps(t.lev, t.dl, lits);
      CountClause(|cl|, learned);
      NewClause(cl, learned);
      if connect {
        ConnectClause(c, cl);
        ConnectAgain(Tag(old(d), c, learned), c, cl);
      }
      if |lits| == 0 && mtcls.None? {
        mtcls := Some(c);
      }
    }

    /** Stores a clause, as a pair of implications if it has two literals, and connects it if asked to. */
    method StoreClause(lits: Clause, learned: bool, connect: bool) returns (ref: ClauseRef)
      modifies `d, `oclauses, `lclauses, `nextCid, `mtcls, `counts
      ensures St() == StoreState(old(St()), lits, learned, connect)
      ensures ref == if |lits| == 2 then Binary(lits[0], lits[1]) else Large(old(nextCid))
    {
      hide SortLits, PushLit, Connect, Tag, CountStore;
      if |lits| == 2 {
        if connect {
          ConnectBinary(lits[0], lits[1]);
        }
        return Binary(lits[0], lits[1]);
      }
      ref := Large(nextCid);
      StoreLargeClause(lits, learned, connect);
      assert St() == old(St()).(D := d, ocls := oclauses, lcls := lclauses, next := nextCid, mtcls := mtcls,
        k := counts);
    }

    /** Assigns a literal because of a reason, and keeps the reason from being deleted. At top level the variable gets
        the greatest score. */
    method AssignForced(lit: Lit, r: Reason)
      requires !r.Decision? && (r.Antecedent? ==> r.c in d.cls)
      requires lit != 0 && 1 <= Var(lit) <= maxVar && Free(t, lit) && Proper(t)
      requires HeapOk()
      modifies `t, `d, `lclauses, `nextCid, `locked, `counts, `mtcls, `oclauses, `conflict
      modifies heap`rank, heap`heap, heap`pos
      ensures HeapOk() && t.dl == old(t).dl
      ensures St() == ForcedState(old(St()), lit, r)
      ensures heap.rank == if old(t).dl > 0 then old(heap.rank)
                           else old(heap.rank)[Var(lit) := old(heap.rank)[Var(lit)].(score := SoftFloat.INFFLT)]
      decreases 3
    {
      hide HeapOk, ForcedState, Free, Proper;
      AssignLocked(lit, r);
      if t.dl == 0 {
        FixVar(Var(lit));
      }
    }

    method AssignLocked(lit: Lit, r: Reason)
      requires !r.Decision? && (r.Antecedent? ==> r.c in d.cls)
      requires lit != 0 && 1 <= Var(lit) <= maxVar && Free(t, lit) && Proper(t)
      requires HeapOk()
      modifies `t, `d, `lclauses, `nextCid, `locked, `counts, `mtcls, `oclauses, `conflict
      modifies heap`rank, heap`heap, heap`pos
      ensures HeapOk() && heap.rank == old(heap.rank)
      ensures St() == ForcedState(old(St()), lit, r) && t.dl == old(t).dl
      decreases 3, 0
    {
      hide HeapOk, StoreState, Free, Proper, TopForceState;
      ghost var s := St();
      var why := r;
      ProperExtend(t, lit, r);
      Assign(lit, r);
      if t.dl == 0 && !(r.Antecedent? && |d.cls[r.c]| == 1) {
        why := ResolveTopLevelUnit(lit);
        TopForceAgain(s, lit, r);
        UnitWeight(s, lit, r);
      }
      Lock(why);
    }

    /** Keeps the clause of a reason from being deleted. */
    method Lock(why: Reason)
      modifies `locked, `counts
      ensures locked == old(locked) + LockOf(why) && counts == Locking(old(counts), d, why)
    {
      assert locked + {} == locked;
      if why.Antecedent? {
        locked := locked + {why.c};
        if why.c in d.learned && why.c in d.cls && |d.cls[why.c]| > 2 {
          counts := counts.(llocked := counts.llocked + 1);
        }
      }
    }

    method Unlock(reason: Reason)
      modifies `locked, `counts
      ensures locked == old(locked) - LockOf(reason) && counts == Unlocking(old(counts), d, reason)
    {
      assert locked - {} == locked;
      if reason.Antecedent? {
        locked := locked - {reason.c};
        if reason.c in d.learned && reason.c in d.cls && |d.cls[reason.c]| > 2 {
          counts := counts.(llocked := counts.llocked - 1);
        }
      }
    }

    /** Learns the literal just forced at top level as a unit clause, which becomes its reason. */
    method ResolveTopLevelUnit(lit: Lit) returns (r: Reason)
      requires lit in t.lev && 1 <= Var(lit) <= maxVar && Proper(t)
      requires HeapOk()
      modifies `t, `d, `lclauses, `nextCid, `mtcls, `oclauses, `conflict, `locked, `counts
      modifies heap`rank, heap`heap, heap`pos
      ensures HeapOk() && heap.rank == old(heap.rank) && t.dl == old(t).dl
      ensures r == Antecedent(old(nextCid))
      ensures var s := StoreState(old(St()), [lit], true, true);
        St() == s.(T := s.T.(rsn := s.T.rsn[lit := r]))
      decreases 2
    {
      hide HeapOk, StoreState, AddState;
      TrueStored(St(), lit);
      StoreFacts(St(), [lit], true, true);
      var ref := AddSimplifiedClause([lit], true);
      r := Antecedent(ref.c);
      SetReason(lit, r);
    }

    /** Adds a clause. At top level it is resolved with its false literals first, and it may force a literal. */
    method AddSimplifiedClause(added: Clause, learned: bool) returns (ref: ClauseRef)
      requires Proper(t) && 0 !in added && KnownVars(maxVar, added)
      requires t.dl > 0 ==> forall l :: l in added ==> !Free(t, l)
      requires HeapOk()
      modifies `t, `d, `lclauses, `nextCid, `mtcls, `oclauses, `conflict, `locked, `counts
      modifies heap`rank, heap`heap, heap`pos
      ensures HeapOk() && ((forall l :: l in added ==> !Free(old(t), l)) ==> heap.rank == old(heap.rank))
      ensures St() == AddState(old(St()), added, learned)
      ensures old(t).dl > 0 || (forall l :: l in added ==> -l !in old(t).lev) ==> ref == RefOf(added, old(nextCid))
      decreases if exists l :: l in added && Free(t, l) then 5 else 1
    {
      hide HeapOk, StoreState, Settle, Free, Proper, NonFalse, AddState;
      AddStateIs(St(), added, learned);
      StoreFacts(St(), added, learned, true);
      var lits;
      ghost var c;
      lits, ref, c := StoreSimplified(added, learned);
      SettleClause(lits, ref, c);
    }

    /** Stores a clause, and at top level what is left of it without its false literals. */
    method StoreSimplified(added: Clause, learned: bool) returns (lits: Clause, ref: ClauseRef, ghost c: Cid)
      requires Proper(t)
      modifies `d, `oclauses, `lclauses, `nextCid, `mtcls, `counts
      ensures var s, u := old(St()), StoreState(old(St()), added, learned, true);
        if s.T.dl == 0 && !(forall l :: l in added ==> -l !in s.T.lev)
        then lits == NonFalse(s.T.lev, added) && c == u.next && St() == StoreState(u, lits, true, false)
        else lits == added && c == s.next && St() == u
      ensures ref == RefOf(lits, c) && (|lits| == 1 ==> c in d.cls && |d.cls[c]| == 1)
      ensures forall l :: l in lits ==> l in added && (t.dl == 0 ==> -l !in t.lev)
    {
      hide StoreState, NonFalse;
      StoreFacts(St(), added, learned, true);
      c := nextCid;
      ref := StoreClause(added, learned, true);
      lits := added;
      var numTrue, numUndef, numFalse := CountVals(t.lev, lits);
      if t.dl == 0 && numFalse > 0 {
        lits := CollectNonFalse(t.lev, added);
        NonFalseElems(t.lev, added);
        StoreFacts(St(), lits, true, false);
        c := nextCid;
        ref := StoreClause(lits, true, false);
      }
    }

    /** A clause that is unit forces its literal; one that is false is the conflict. */
    method SettleClause(lits: Clause, ref: ClauseRef, ghost c: Cid)
      requires Proper(t) && 0 !in lits && KnownVars(maxVar, lits)
      requires ref == RefOf(lits, c)
      requires |lits| == 1 ==> c in d.cls && |d.cls[c]| == 1
      requires forall l :: l in lits ==> if t.dl > 0 then !Free(t, l) else -l !in t.lev
      requires HeapOk()
      modifies `t, `d, `lclauses, `nextCid, `mtcls, `oclauses, `conflict, `locked, `counts
      modifies heap`rank, heap`heap, heap`pos
      ensures HeapOk() && ((forall l :: l in lits ==> !Free(old(t), l)) ==> heap.rank == old(heap.rank))
      ensures St() == Settle(old(St()), lits, c)
      decreases if exists l :: l in lits && Free(t, l) then 4 else 0
    {
      var numTrue, numUndef, numFalse := CountVals(t.lev, lits);
      if numTrue == 0 && numUndef == 1 {
        AssignForced(lits[0], Antecedent(ref.c));
      } else if numFalse == |lits| && conflict.NoClause? {
        conflict := ref;
      }
    }

    // ---------- unassigning ----------

    /** Makes the last literal unassigned again: its reason is unlocked, and the clauses parked with it are put back. */
    method Unassign(lit: Lit)
      requires lit in t.lev && lit in t.rsn && 1 <= Var(lit) <= maxVar
      requires ListsOk(d) && ClausesOk(maxVar, d.cls) && HeapOk()
      modifies `t, `d, `locked, `counts, heap`heap, heap`pos
      ensures HeapOk()
      ensures t == old(t).(lev := old(t).lev - {lit}, rsn := old(t).rsn - {lit}, pos := old(t).pos - {lit})
      ensures locked == old(locked) - LockOf(old(t).rsn[lit])
      ensures counts == Unlocking(old(counts), old(d), old(t).rsn[lit])
      ensures d == old(d).(htps := d.htps, dhtps := d.dhtps) && ListsOk(d)
      ensures At(d.dhtps, lit) == [] && forall l :: l != lit ==> At(d.dhtps, l) == At(old(d).dhtps, l)
    {
      hide HeapOk, ListsOk, ClausesOk;
      Unlock(t.rsn[lit]);
      ResetValue(lit);
      Relink(lit);
    }

    /** The variable of a literal that loses its value is on the heap again. */
    method ResetValue(lit: Lit)
      requires 1 <= Var(lit) <= maxVar && HeapOk()
      modifies `t, heap`heap, heap`pos
      ensures HeapOk()
      ensures t == old(t).(lev := old(t).lev - {lit}, rsn := old(t).rsn - {lit}, pos := old(t).pos - {lit})
    {
      hide Heap.Known, Heap.Placed, Heap.Ordered;
      t := t.(lev := t.lev - {lit}, rsn := t.rsn - {lit}, pos := t.pos - {lit});
      heap.PutBack(Var(lit));
    }

    method Relink(lit: Lit)
      requires ListsOk(d) && ClausesOk(maxVar, d.cls)
      modifies `d
      ensures d == old(d).(htps := d.htps, dhtps := old(d).dhtps[lit := []]) && ListsOk(d)
    {
      hide ListsOk, ClausesOk, Push;
      var p := At(d.dhtps, lit);
      ghost var dhtps := d.dhtps;
      ListSame(d, lit);
      d := d.(dhtps := d.dhtps[lit := []]);
      while p != []
        invariant d == old(d).(htps := d.htps, dhtps := old(d).dhtps[lit := []])
        invariant ListsOk(d.(dhtps := dhtps[lit := p]))
      {
        var c, rest := p[0], p[1..];
        assert p == [c] + rest;
        ghost var E := d.(dhtps := dhtps[lit := p]);
        UnparkLinks(maxVar, E, lit, c, rest);
        var o := OtherWatch(d.cls[c], lit);
        d := d.(htps := Push(d.htps, o, c));
        p := rest;
        assert E.dhtps[lit := rest] == dhtps[lit := rest];
        assert d.(dhtps := dhtps[lit := p]) == Unpark(E, lit, c, rest);
      }
      assert d.(dhtps := dhtps[lit := []]) == d;
    }

    /** Takes the literals above a level off the trail. */
    method PopTrail(newLevel: nat, ghost s: State, ghost x: Exempt)
      requires Invariant(s, x) && newLevel <= s.T.dl && maxVar == s.n
      requires t == s.T && d == s.D && locked == s.locked && counts == s.k && HeapOk()
      modifies `t, `d, `locked, `counts, heap`heap, heap`pos
      ensures HeapOk()
      ensures Popped(s, t, d, locked, counts, |t.lits|) && Splits(s.T, |t.lits|, newLevel)
    {
      hide *;
      PopStart(s, x);
      NothingAbove(t, newLevel);
      PopReady(s, x, t, d, locked, counts, |t.lits|, newLevel);
      while |t.lits| > 0 && t.lev[t.lits[|t.lits| - 1]] != newLevel
        invariant HeapOk()
        invariant |t.lits| > 0 ==> t.lits[|t.lits| - 1] in t.lev && t.lits[|t.lits| - 1] in t.rsn
        invariant Popped(s, t, d, locked, counts, |t.lits|)
        invariant AllAbove(s.T, |t.lits|, newLevel)
        decreases |t.lits|
      {
        ghost var t', D', L', K' := t, d, locked, counts;
        PopReady(s, x, t, d, locked, counts, |t.lits|, newLevel);
        var lit := t.lits[|t.lits| - 1];
        HeapParts();
        t := t.(lits := t.lits[..|t.lits| - 1]);
        HeapStays(t.lev);
        Unassign(lit);
        PopKeeps(s, t', D', L', K', |t'.lits|, t, d, locked, counts);
        PopReady(s, x, t, d, locked, counts, |t.lits|, newLevel);
      }
      PopReady(s, x, t, d, locked, counts, |t.lits|, newLevel);
    }

    /** Sets the current level; everything on the trail counts as propagated. */
    method ResetQueue(newLevel: nat)
      requires HeapOk()
      modifies `t, `wdone, `bdone, `ttail, `ttail2, `conflict, `adecidelevel, `alstail
      ensures t == old(t).(dl := newLevel) && wdone == bdone == ttail == ttail2 == |t.lits|
      ensures conflict == if mtcls.Some? then Large(mtcls.value) else NoClause
      ensures adecidelevel == if newLevel < old(adecidelevel) then 0 else old(adecidelevel)
      ensures alstail == if newLevel < old(adecidelevel) then 0 else old(alstail)
      ensures HeapOk()
    {
      t := t.(dl := newLevel);
      ttail, ttail2 := |t.lits|, |t.lits|;
      wdone, bdone := |t.lits|, |t.lits|;
      conflict := if mtcls.Some? then Large(mtcls.value) else NoClause;
      if newLevel < adecidelevel {
        adecidelevel := 0;
        alstail := 0;
      }
    }

    /** Goes back to a lower level. */
    method Undo(newLevel: nat, ghost x: Exempt) returns (ghost k: nat)
      requires Invariant(St(), x)
      requires newLevel < t.dl || (newLevel == t.dl && mtcls.Some?)
      requires HeapOk()
      modifies `t, `d, `locked, `counts, `wdone, `bdone, `ttail, `ttail2, `conflict, `adecidelevel, `alstail
      modifies heap`heap, heap`pos
      ensures HeapOk()
      ensures Undone(old(St()), St(), k, newLevel)
      ensures ListsOk(d) && ParkedTrue(t, d.dhtps)
      ensures Invariant(St(), x)
    {
      hide HeapOk, Invariant, Popped, Undone, ListsOk, ParkedTrue, Splits;
      ghost var s := St();
      PopTrail(newLevel, s, x);
      k := |t.lits|;
      ghost var t', D', L', K' := t, d, locked, counts;
      ResetQueue(newLevel);
      assert St() == s.(T := t'.(dl := newLevel), D := D', locked := L',
        wdone := k, bdone := k, ttail := k, ttail2 := k,
        conflict := conflict, adl := adecidelevel, alstail := alstail, k := K');
      PopDone(s, t', D', L', K', k, newLevel, St());
      UndoKeeps(s, St(), x, k, newLevel);
    }

    // ---------- unit propagation ----------

    /** Propagates the falsity of w over the binary clauses that contain w. */
    method Prop2(w: Lit, ghost b: nat)
      requires Invariant(St(), NOTHING) && Implying(St(), b, w, |At(d.impls, w)|)
      requires HeapOk()
      modifies `t, `d, `lclauses, `nextCid, `locked, `counts, `mtcls, `oclauses, `conflict, `bdone
      modifies heap`rank, heap`heap, heap`pos
      ensures HeapOk()
      ensures Invariant(St(), NOTHING) && Synced(St()) && Grows(old(St()), St())
    {
      hide HeapOk, Invariant, Implying, At, Grows, Synced;
      ghost var s := St();
      GrowsSelf(s);
      var lstk := At(d.impls, w);
      var l := |lstk|;
      while l > 0
        invariant 0 <= l <= |lstk|
        invariant Invariant(St(), NOTHING) && Implying(St(), b, w, l)
        invariant At(d.impls, w) == lstk && Grows(s, St()) && HeapOk()
      {
        ghost var before := St();
        l := l - 1;
        Imply(w, lstk[l], b, l);
        GrowsOn(s, before, St());
      }
      ghost var before := St();
      FinishProp2(w, b);
      MarksGrow(before, St());
      GrowsOn(s, before, St());
    }

    /** Visits one binary clause: its other literal is true, is forced, or is false and then the clause is the
        conflict. */
    method Imply(w: Lit, other: Lit, ghost b: nat, ghost i: nat)
      requires Invariant(St(), NOTHING) && Implying(St(), b, w, i + 1)
      requires i < |At(d.impls, w)| && other == At(d.impls, w)[i]
      requires HeapOk()
      modifies `t, `d, `lclauses, `nextCid, `locked, `counts, `mtcls, `oclauses, `conflict
      modifies heap`rank, heap`heap, heap`pos
      ensures HeapOk()
      ensures Invariant(St(), NOTHING) && Implying(St(), b, w, i) && Grows(old(St()), St())
      ensures At(d.impls, w) == At(old(d).impls, w)
    {
      hide HeapOk, Invariant, Implying, At, Grows, Proper, ForcedState, CanForce, OneMore;
      ghost var s := St();
      InvProper(s);
      GrowsSelf(s);
      assert other in At(d.impls, w);
      if other in t.lev {
        ImplySkip(s, b, w, i + 1);
      } else if -other !in t.lev {
        ImplyingFacts(s, b, w, i + 1);
        ImplIn(s, w, other);
        ImplyCan(s, b, w, other);
        CanForceKnown(s, other, Implied(-w));
        ForcedKeeps(s, other, Implied(-w));
        AssignForced(other, Implied(-w));
        ImplyForced(s, b, w, i + 1, St());
        OneMoreGrows(s, St(), other);
      } else {
        conflict := Binary(w, other);
        ImplyConflict(s, b, w, i + 1, St());
        ConflictGrows(s, St());
      }
    }

    ghost method FinishProp2(w: Lit, b: nat)
      requires Invariant(St(), NOTHING) && Implying(St(), b, w, 0)
      modifies `bdone
      ensures Invariant(St(), NOTHING) && Synced(St())
      ensures St() == old(St()).(bdone := St().bdone)
    {
      hide Invariant, Implying, Synced;
      ghost var s := St();
      bdone := if conflict.NoClause? then ttail2 else bdone;
      ImplyEnd(s, b, w, St());
    }

    /** A clause satisfied by a literal of a lower level is taken off the list until that literal is unassigned. */
    method ShouldDisconnect(lit: Lit) returns (r: bool)
      requires lit in t.lev
      ensures r <==> t.lev[lit] == 0 || t.lev[lit] < t.dl
    {
      r := t.lev[lit] == 0 || t.lev[lit] < t.dl;
    }

    /** Propagates the falsity of w over the clauses on its watch list. */
    method Propl(w: Lit, ghost b: nat)
      requires Invariant(St(), NOTHING) && Visiting(St(), b, w, [], At(d.htps, w))
      requires HeapOk()
      modifies `t, `d, `lclauses, `nextCid, `locked, `counts, `mtcls, `oclauses, `conflict, `wdone
      modifies heap`rank, heap`heap, heap`pos
      ensures HeapOk()
      ensures Invariant(St(), NOTHING) && Synced(St()) && Grows(old(St()), St())
    {
      hide HeapOk, Invariant, Visiting, At, Grows;
      ghost var s := St();
      GrowsSelf(s);
      var keep: seq<Cid> := [];
      var rest := At(d.htps, w);
      while rest != []
        invariant Invariant(St(), NOTHING) && Visiting(St(), b, w, keep, rest) && Grows(s, St()) && HeapOk()
        decreases |rest|
      {
        ghost var before := St();
        var c := rest[0];
        assert [c] + rest[1..] == rest;
        rest := rest[1..];
        var kept, stop := Visit(w, keep, c, rest, b);
        GrowsOn(s, before, St());
        if stop {
          return;
        }
        if kept {
          keep := keep + [c];
        }
      }
      ghost var before := St();
      FinishPropl(w, keep, b);
      MarksGrow(before, St());
      GrowsOn(s, before, St());
    }

    ghost method FinishPropl(w: Lit, keep: seq<Cid>, b: nat)
      requires Invariant(St(), NOTHING) && Visiting(St(), b, w, keep, [])
      modifies `wdone
      ensures Invariant(St(), NOTHING) && Synced(St())
      ensures St() == old(St()).(wdone := St().wdone)
    {
      hide Invariant, Visiting, Synced;
      ghost var s := St();
      wdone := ttail;
      VisitEnd(s, b, w, keep, St());
    }

    /** Visits the clause at the front of the list of w. It stays on the list or leaves it; a conflict ends the
        visits. */
    method Visit(w: Lit, keep: seq<Cid>, c: Cid, rest: seq<Cid>, ghost b: nat) returns (kept: bool, stop: bool)
      requires Invariant(St(), NOTHING) && Visiting(St(), b, w, keep, [c] + rest)
      requires HeapOk()
      modifies `t, `d, `lclauses, `nextCid, `locked, `counts, `mtcls, `oclauses, `conflict
      modifies heap`rank, heap`heap, heap`pos
      ensures HeapOk()
      ensures Invariant(St(), NOTHING) && Grows(old(St()), St())
      ensures stop ==> !conflict.NoClause?
      ensures !stop ==> Visiting(St(), b, w, if kept then keep + [c] else keep, rest)
    {
      hide HeapOk, Invariant, Visiting, At, Grows, Facing, IsWatch, Entails;
      ghost var s := St();
      VisitFacts(s, b, w, keep, c, rest);
      Face(w, keep, c, rest, b);
      ghost var u := St();
      VisitFacing(u, b, w, keep, c, rest);
      InvProper(u);
      var other := d.cls[c][1];
      if other in t.lev {
        var park := ShouldDisconnect(other);
        if park {
          d := d.(htps := d.htps[w := keep + rest], dhtps := d.dhtps[other := [c] + At(d.dhtps, other)]);
          VisitPark(u, b, w, keep, c, rest, St());
        } else {
          VisitPass(u, b, w, keep, c, rest);
        }
        StoreGrows(u, St());
        GrowsOn(s, u, St());
        return !park, false;
      }
      kept, stop := Replace(w, keep, c, rest, b);
      GrowsOn(s, u, St());
    }

    /** Makes w the first literal of the clause. */
    method Face(w: Lit, keep: seq<Cid>, c: Cid, rest: seq<Cid>, ghost b: nat)
      requires Invariant(St(), NOTHING) && Visiting(St(), b, w, keep, [c] + rest)
      modifies `d
      ensures Invariant(St(), NOTHING) && Facing(St(), b, w, keep, c, rest) && Grows(old(St()), St())
    {
      hide Invariant, Visiting, Grows, Entails;
      ghost var s := St();
      VisitFacts(s, b, w, keep, c, rest);
      GrowsSelf(s);
      if d.cls[c][0] != w {
        d := d.(cls := d.cls[c := [d.cls[c][1], d.cls[c][0]] + d.cls[c][2..]]);
        VisitSwap(s, b, w, keep, c, rest, St());
        StoreGrows(s, St());
      } else if |d.cls[c]| == 1 {
        // A unit clause on the list of a false literal; unit clauses are true since top level.
        assert false;
      }
    }

    /** The other watch is not true: another literal is watched instead of w, or the clause is unit or falsified. */
    method Replace(w: Lit, keep: seq<Cid>, c: Cid, rest: seq<Cid>, ghost b: nat) returns (kept: bool, stop: bool)
      requires Invariant(St(), NOTHING) && Facing(St(), b, w, keep, c, rest) && d.cls[c][1] !in t.lev
      requires HeapOk()
      modifies `t, `d, `lclauses, `nextCid, `locked, `counts, `mtcls, `oclauses, `conflict
      modifies heap`rank, heap`heap, heap`pos
      ensures HeapOk()
      ensures Invariant(St(), NOTHING) && Grows(old(St()), St())
      ensures stop ==> !conflict.NoClause?
      ensures !stop ==> Visiting(St(), b, w, if kept then keep + [c] else keep, rest)
    {
      hide HeapOk, Invariant, Visiting, At, Grows, Facing, IsWatch, Entails, CanForce, OneMore, ForcedState, SameLits;
      ghost var s := St();
      VisitFacing(s, b, w, keep, c, rest);
      InvProper(s);
      var other := d.cls[c][1];
      var found, cl := FindNonFalse(t.lev, d.cls[c]);
      if found {
        MoveClause(w, keep, c, rest, cl, b);
        return false, false;
      }
      if -other in t.lev {
        conflict := Large(c);
        VisitConflict(s, b, w, keep, c, rest, St());
        ConflictGrows(s, St());
        return true, true;
      }
      VisitCan(s, b, w, keep, c, rest);
      CanForceKnown(s, other, Antecedent(c));
      ForcedKeeps(s, other, Antecedent(c));
      AssignForced(other, Antecedent(c));
      VisitForced(s, b, w, keep, c, rest, St());
      OneMoreGrows(s, St(), other);
      return true, false;
    }

    method MoveClause(w: Lit, keep: seq<Cid>, c: Cid, rest: seq<Cid>, cl: Clause, ghost b: nat)
      requires Invariant(St(), NOTHING) && Facing(St(), b, w, keep, c, rest) && d.cls[c][1] !in t.pos
      requires |cl| == |d.cls[c]| && SameLits(d.cls[c], cl) && NoDup(cl)
      requires cl[1] == d.cls[c][1] && cl[0] != w && -cl[0] !in t.pos
      modifies `d
      ensures Invariant(St(), NOTHING) && Grows(old(St()), St())
      ensures Visiting(St(), b, w, keep, rest)
    {
      hide Invariant, Visiting, Grows, SameLits, NoDup;
      ghost var s := St();
      d := d.(cls := d.cls[c := cl], htps := Push(d.htps[w := keep + rest], cl[0], c));
      VisitMove(s, b, w, keep, c, rest, cl, St());
      StoreGrows(s, St());
    }

    /** Propagates the next literal over its binary clauses. */
    method NextBinary()
      requires Invariant(St(), NOTHING) && Synced(St()) && ttail2 < |t.lits|
      requires HeapOk()
      modifies `t, `d, `lclauses, `nextCid, `locked, `counts, `mtcls, `oclauses, `conflict, `bdone, `ttail2
      modifies heap`rank, heap`heap, heap`pos
      ensures HeapOk()
      ensures Invariant(St(), NOTHING) && Synced(St()) && Grows(old(St()), St())
      ensures ttail2 == old(ttail2) + 1
    {
      hide HeapOk, Invariant, Grows, Synced, Implying, At;
      ghost var s := St();
      var w := -t.lits[ttail2];
      ttail2 := ttail2 + 1;
      ghost var u := St();
      ImplyStart(s, u, s.ttail2);
      MarksGrow(s, u);
      Prop2(w, s.ttail2);
      GrowsOn(s, u, St());
    }

    /** Propagates the next literal over its watch list. */
    method NextWatches()
      requires Invariant(St(), NOTHING) && Synced(St()) && ttail < |t.lits| && conflict.NoClause? && mtcls.None?
      requires HeapOk()
      modifies `t, `d, `lclauses, `nextCid, `locked, `counts, `mtcls, `oclauses, `conflict, `wdone, `ttail
      modifies heap`rank, heap`heap, heap`pos
      ensures HeapOk()
      ensures Invariant(St(), NOTHING) && Synced(St()) && Grows(old(St()), St())
      ensures ttail == old(ttail) + 1
    {
      hide HeapOk, Invariant, Grows, Synced, Visiting, At;
      ghost var s := St();
      var w := -t.lits[ttail];
      ttail := ttail + 1;
      ghost var u := St();
      VisitStart(s, u, s.ttail);
      MarksGrow(s, u);
      Propl(w, s.ttail);
      GrowsOn(s, u, St());
    }

    /** Propagates all assigned literals, binary clauses first, until nothing is left or a conflict is found. */
    method Bcp()
      requires Invariant(St(), NOTHING) && Synced(St()) && conflict.NoClause?
      requires HeapOk()
      modifies `t, `d, `lclauses, `nextCid, `locked, `counts, `mtcls
      modifies `oclauses, `conflict, `wdone, `bdone, `ttail, `ttail2, `propagations, heap`rank, heap`heap, heap`pos
      ensures HeapOk()
      ensures Invariant(St(), NOTHING) && Synced(St()) && Grows(old(St()), St())
      ensures mtcls.None? && conflict.NoClause? ==> ttail == ttail2 == |t.lits| && AllQuiet(St())
      ensures propagations == old(propagations) + ttail2 - old(ttail2)
      ensures old(ttail == ttail2 == |t.lits|) ==> St() == old(St())
    {
      hide HeapOk, Invariant, Grows, Synced, AllQuiet;
      ghost var s := St();
      GrowsSelf(s);
      if mtcls.Some? {
        return;
      }
      var props: nat := 0;
      InvFits(s);
      while true
        invariant Invariant(St(), NOTHING) && Synced(St()) && Grows(s, St()) && HeapOk()
        invariant ttail <= maxVar && ttail2 <= maxVar && propagations == old(propagations)
        invariant props == ttail2 - old(ttail2)
        invariant old(ttail == ttail2 == |t.lits|) ==> St() == s
        decreases 2 * maxVar - ttail - ttail2
      {
        ghost var u := St();
        GrowsKeeps(s, u);
        InvFits(u);
        if ttail2 < |t.lits| {
          props := props + 1;
          NextBinary();
          GrowsOn(s, u, St());
        } else if ttail < |t.lits| {
          if !conflict.NoClause? {
            break;
          }
          NextWatches();
          GrowsOn(s, u, St());
          if !conflict.NoClause? {
            break;
          }
        } else {
          break;
        }
        InvFits(St());
      }
      propagations := propagations + props;
      if mtcls.None? && conflict.NoClause? {
        BcpQuiet(St());
      }
    }

    // ---------- conflicts ----------

    /** Assigns the only unassigned literal of a clause whose other literals are false. */
    method Force(ref: ClauseRef, ghost forced: Lit)
      requires !ref.NoClause? && (ref.Large? ==> ref.c in d.cls)
      requires Proper(t) && forced != 0 && forced in ConflictLits(ref, d.cls) && Free(t, forced)
      requires 1 <= Var(forced) <= maxVar
      requires forall l :: l in ConflictLits(ref, d.cls) && l != forced ==> !Free(t, l)
      requires HeapOk()
      modifies `t, `d, `lclauses, `nextCid, `locked, `counts, `mtcls, `oclauses, `conflict
      modifies heap`rank, heap`heap, heap`pos
      ensures St() == ForcedState(old(St()), forced, ForceReason(ref, forced)) && HeapOk() && t.dl == old(t).dl
      ensures heap.rank == Heap.WithFixed(old(heap.rank), if old(t).dl == 0 then {Var(forced)} else {})
    {
      hide HeapOk, ForcedState, Proper, Free, Heap.WithFixed, St;
      HeapRank(Var(forced));
      Heap.FixOne(heap.rank, Var(forced));
      var c := ConflictLits(ref, d.cls);
      var p := 0;
      while p < |c| && (c[p] in t.lev || -c[p] in t.lev)
        invariant 0 <= p <= |c|
        invariant forall i :: 0 <= i < p ==> c[i] != forced
        modifies {}
      {
        AssignedNotFree(t, c[p]);
        p := p + 1;
      }
      FreeThere(t, c, p, forced);
      AssignForced(c[p], ForceReason(ref, c[p]));
    }

    /** Analyzes the conflict, finds the level to go back to, and adds the learned clause. */
    method Learn() returns (ref: ClauseRef, newLevel: nat, added: Clause)
      requires Invariant(St(), NOTHING) && !conflict.NoClause? && HeapOk()
      modifies `t, `d, `lclauses, `nextCid, `locked, `counts, `mtcls, `oclauses, `conflict, heap
      ensures HeapOk()
      ensures var s := old(St());
        Heap.Bumps(old(heap.Scored()), heap.Scored(), MetVars(s.T, s.D.cls, ConflictLits(s.conflict, s.D.cls)))
      ensures var s := old(St());
        && Learned(s, added) && Target(s.T, added, newLevel) && (s.T.dl == 0 <==> added == [])
        && Analyzed(s, ConflictLits(s.conflict, s.D.cls), added) && StoreEntails(s.D, added)
        && (added == [] ==> newLevel == 0)
        && St() == StoreState(s, added, true, true) && ref == RefOf(added, s.next)
        && Invariant(St(), Widen(s, NOTHING, added))
        && (newLevel < t.dl || (newLevel == t.dl && mtcls.Some?))
      ensures t == old(t)
    {
      hide HeapOk, Invariant, Learned, Analyzed, StoreEntails, Proper, Free, StoreState, AddState, Sound, Target, Widen;
      hide Heap.Bumps, MetVars;
      ghost var s := St();
      InvConflict(s);
      var confl := ConflictLits(conflict, d.cls);
      ghost var waiting := HeapMembers();
      added := Analyze(t.lits, t.lev, t.rsn, t.dl, d.cls, confl, heap, s, waiting);
      MembersOk(waiting);
      LearnedFacts(s, added);
      LearnedStored(s, added);
      newLevel := Drive(t.lev, t.dl, added);
      TargetFound(s, added, newLevel);
      ref := AddSimplifiedClause(added, true);
      LearnedInv(s, added, newLevel);
      StoreFrame(s, added, true, true);
    }

    /** The variable of a literal that is forced after going back to top level. */
    static ghost function FixedNow(T: Trail, T': Trail, l: Lit): set<nat> {
      if T.dl > 0 && T'.dl == 0 then {Var(l)} else {}
    }

    /** Learns a clause from the conflict, goes back, and lets the clause force its literal. */
    method JumpBack() returns (ghost k: nat, ghost l: Lit)
      requires Invariant(St(), NOTHING) && !conflict.NoClause? && HeapOk()
      modifies `t, `d, `lclauses, `nextCid, `locked, `counts, `mtcls, `oclauses
      modifies `conflict, `wdone, `bdone, `ttail, `ttail2, `adecidelevel, `alstail, `conflicts, heap
      ensures Invariant(St(), NOTHING) && Synced(St()) && HeapOk() && Heap.Later(old(heap.past), heap.past)
      ensures conflicts == old(conflicts) + 1
      ensures var s := old(St());
        Heap.BumpsAndFixes(old(heap.Scored()), heap.Scored(),
          MetVars(s.T, s.D.cls, ConflictLits(s.conflict, s.D.cls)), FixedNow(s.T, t, l))
      ensures old(t).dl == 0 ==> mtcls.Some? && t == old(t) && AtRest(St())
      ensures old(t).dl > 0 ==> Jumped(old(t), t, k, l) && mtcls == old(mtcls) && conflict.NoClause?
    {
      hide HeapOk, Invariant, Jumped, Synced, Learned, StoreState, Target, Widen, Analyzed, StoreEntails;
      hide Heap.Bumps, Heap.BumpsAndFixes, Heap.Later, Heap.WithFixed, MetVars, FixedNow, ConflictLits;
      hide Sound, Falsified, Entails, AtRest;
      ghost var s, before := St(), heap.Scored();
      InvConflict(s);
      ghost var B := MetVars(s.T, s.D.cls, ConflictLits(s.conflict, s.D.cls));
      conflicts := conflicts + 1;
      var ref, newLevel, added := Learn();
      ghost var mid := heap.Scored();
      k, l := GoBack(s, added, ref, newLevel);
      Heap.FixesAre(before, mid, heap.Scored(), B, FixedNow(s.T, t, l));
    }

    /** Goes back after learning; the learned clause then forces its first literal. */
    method GoBack(ghost s: State, added: Clause, ref: ClauseRef, newLevel: nat) returns (ghost k: nat, ghost l: Lit)
      requires Invariant(s, NOTHING) && Learned(s, added) && Target(s.T, added, newLevel)
      requires (s.T.dl == 0 <==> added == []) && (added == [] ==> newLevel == 0) && ref == RefOf(added, s.next)
      requires St() == StoreState(s, added, true, true) && t == s.T && Invariant(St(), Widen(s, NOTHING, added))
      requires (newLevel < t.dl || (newLevel == t.dl && mtcls.Some?)) && HeapOk() && s.n == maxVar
      modifies `t, `d, `lclauses, `nextCid, `locked, `counts, `mtcls, `oclauses
      modifies `conflict, `wdone, `bdone, `ttail, `ttail2, `adecidelevel, `alstail, heap`rank, heap`heap, heap`pos
      ensures Invariant(St(), NOTHING) && Synced(St()) && HeapOk()
      ensures heap.rank == Heap.WithFixed(old(heap.rank), FixedNow(s.T, t, l))
      ensures s.T.dl == 0 ==> mtcls.Some? && t == s.T && AtRest(St())
      ensures s.T.dl > 0 ==> Jumped(s.T, t, k, l) && mtcls == s.mtcls && conflict.NoClause?
    {
      hide HeapOk, Invariant, Jumped, Synced, Learned, Proper, Free, ListsOk, ParkedTrue;
      hide StoreState, Undone, ForcedState, Target, ConflictLits, Widen, Heap.WithFixed;
      Heap.FixNone(heap.rank);
      k := Undo(newLevel, Widen(s, NOTHING, added));
      ghost var u := St();
      if added == [] {
        l := 0;
        TopDone(s, u, k);
      } else {
        l := added[0];
        ForceReady(s, added, u, k, newLevel);
        Force(ref, l);
        JumpDone(s, added, u, k, newLevel, St());
      }
    }

    /** Handles a conflict. */
    method Backtrack() returns (ghost k: nat, ghost l: Lit)
      requires Invariant(St(), NOTHING) && !conflict.NoClause? && HeapOk()
      modifies `t, `d, `lclauses, `nextCid, `locked, `counts, `mtcls, `oclauses
      modifies `conflict, `wdone, `bdone, `ttail, `ttail2, `adecidelevel, `alstail, `conflicts
      modifies `lreduce, `lreduceadjustcnt, `lreduceadjustinc, heap
      ensures Invariant(St(), NOTHING) && Synced(St()) && HeapOk() && Heap.Later(old(heap.past), heap.past)
      ensures conflicts == old(conflicts) + 1
      ensures LimitAdjusted(old(lreduceadjustcnt), old(lreduceadjustinc), old(lreduce),
        lreduceadjustcnt, lreduceadjustinc, lreduce)
      ensures var s := old(St());
        Heap.BumpsAndFixes(old(heap.Scored()), heap.Scored(),
          MetVars(s.T, s.D.cls, ConflictLits(s.conflict, s.D.cls)), FixedNow(s.T, t, l))
      ensures old(t).dl == 0 ==> mtcls.Some? && t == old(t) && AtRest(St())
      ensures old(t).dl > 0 ==> Jumped(old(t), t, k, l) && mtcls == old(mtcls) && conflict.NoClause?
    {
      hide HeapOk, Invariant, Jumped, Synced, AtRest, Heap.BumpsAndFixes, MetVars;
      k, l := JumpBack();
      AdjustReduceLimit();
    }

    /** Variables are bumped by more from now on. */
    method IncVinc()
      requires HeapOk()
      modifies heap`vinc
      ensures HeapOk() && Heap.Increased(old(heap.vinc), heap.vinc)
    {
      hide *;
      HeapParts();
      heap.IncVinc();
      HeapStays(t.lev);
    }

    /** Raises the increment and handles the conflict. */
    method BumpAndBacktrack() returns (ghost k: nat, ghost l: Lit)
      requires Invariant(St(), NOTHING) && !conflict.NoClause? && HeapOk()
      modifies `t, `d, `lclauses, `nextCid, `locked, `counts, `mtcls, `oclauses
      modifies `conflict, `wdone, `bdone, `ttail, `ttail2, `adecidelevel, `alstail, `conflicts
      modifies `lreduce, `lreduceadjustcnt, `lreduceadjustinc, heap
      ensures Invariant(St(), NOTHING) && Synced(St()) && HeapOk() && Heap.Later(old(heap.past), heap.past)
      ensures conflicts == old(conflicts) + 1
      ensures var s := old(St());
        Heap.BumpsMore(old(heap.Scored()), heap.Scored(),
          MetVars(s.T, s.D.cls, ConflictLits(s.conflict, s.D.cls)), FixedNow(s.T, t, l))
      ensures old(t).dl == 0 ==> mtcls.Some? && t == old(t) && AtRest(St())
      ensures old(t).dl > 0 ==> Jumped(old(t), t, k, l) && mtcls == old(mtcls) && conflict.NoClause?
    {
      hide HeapOk, Invariant, Jumped, Synced, AtRest;
      hide Heap.Increased, Heap.BumpsAndFixes, MetVars, Heap.Later, FixedNow;
      IncVinc();
      k, l := Backtrack();
    }

    static ghost predicate LimitAdjusted(cnt: nat, inc: nat, limit: nat, cnt': nat, inc': nat, limit': nat) {
      match cnt
      case 0 => cnt' == 0xffff_ffff && inc' == inc && limit' == limit
      case 1 => inc' == inc * 121 / 100 && cnt' == inc' && limit' == limit * 110 / 100
      case _ => cnt' == cnt - 1 && inc' == inc && limit' == limit
    }

    /** Raises the limit on learned clauses after ever longer stretches of conflicts. */
    method AdjustReduceLimit()
      modifies `lreduce, `lreduceadjustcnt, `lreduceadjustinc
      ensures LimitAdjusted(old(lreduceadjustcnt), old(lreduceadjustinc), old(lreduce),
        lreduceadjustcnt, lreduceadjustinc, lreduce)
    {
      lreduceadjustcnt := if lreduceadjustcnt == 0 then 0xffff_ffff else lreduceadjustcnt - 1;
      if lreduceadjustcnt == 0 {
        lreduceadjustinc := lreduceadjustinc * 121 / 100;
        lreduceadjustcnt := lreduceadjustinc;
        lreduce := lreduce * 110 / 100;
      }
    }

    // ---------- decisions ----------

    /** Learns why the failed assumption is false. The learned clause becomes the reason of its negation. */
    method Fanalyze()
      requires Invariant(St(), NOTHING) && Settled(St()) && failedAssumption.Some? && -failedAssumption.value in t.lev
      requires HeapOk()
      modifies `t, `d, `lclauses, `nextCid, `locked, `counts, `mtcls, `oclauses, `conflict
      modifies heap`rank, heap`heap, heap`pos
      ensures HeapOk()
      ensures Invariant(St(), NOTHING) && Settled(St())
      ensures St() == old(St()).(T := t, D := d, locked := locked, lcls := lclauses, next := nextCid, k := counts)
      ensures t == old(t).(rsn := t.rsn)
      ensures Explained(old(St()), St(), -failedAssumption.value)
    {
      hide HeapOk, Invariant, Sound, Explains, StoreState, AddState, ExplainedState, Proper, Free, IsDecision, Settled;
      hide Explained, Explainable, NegatesDecisions, DependsOn;
      ghost var s := St();
      InvariantSound(s, NOTHING);
      var learn, added := FailClause(t.lev, t.rsn, d.cls, failedAssumption.value, s);
      if learn {
        var top := -failedAssumption.value;
        ExplainedFacts(s, top, added);
        var ref := AddSimplifiedClause(added, true);
        StoreKeepsReason(s, added, top);
        var old_ := t.rsn[top];
        Unlock(old_);
        var r := ForceReason(ref, top);
        Lock(r);
        SetReason(top, r);
        ExplainedIs(s, top, added, St());
        ExplainedKeeps(s, top, added);
        ExplainedBy(s, St(), top, added);
      } else {
        NothingExplained(s, -failedAssumption.value);
      }
    }

    /** The next assumption is false. */
    method FailAssumption()
      requires Invariant(St(), NOTHING) && Quiescent(St()) && alstail < |als| && -als[alstail] in t.lev
      requires HeapOk()
      modifies `t, `d, `lclauses, `nextCid, `locked, `counts, `mtcls, `oclauses, `conflict, `alstail, `failedAssumption
      modifies heap`rank, heap`heap, heap`pos
      ensures HeapOk()
      ensures Invariant(St(), NOTHING) && Settled(St()) && t == old(t).(rsn := t.rsn)
      ensures failedAssumption == Some(als[old(alstail)]) && Lost(St(), failedAssumption.value)
      ensures alstail == old(alstail) + 1
    {
      hide HeapOk, Invariant, Quiescent, Settled, FailState, Lost;
      ghost var s := St();
      AssumeAls(s);
      failedAssumption := Some(als[alstail]);
      alstail := alstail + 1;
      FailKeeps(s);
      assert St() == FailState(s) by { FailIs(s, St()); }
      Fanalyze();
      LostNow(St());
    }

    /** The next assumption is true already. */
    method SkipAssumption()
      requires Invariant(St(), NOTHING) && Quiescent(St()) && alstail < |als| && als[alstail] in t.lev
      modifies `alstail, `adecidelevel
      ensures Invariant(St(), NOTHING) && Quiescent(St()) && alstail == old(alstail) + 1
    {
      hide Invariant, Quiescent, SkipState;
      ghost var s := St();
      var level := t.lev[als[alstail]];
      alstail := alstail + 1;
      if level > adecidelevel {
        adecidelevel := level;
      }
      SkipKeeps(s);
      SkipIs(s, St());
    }

    /** Finds the next assumption to decide. Assumptions that are true are skipped; a false one fails. */
    method Adecide() returns (lit: Option<Lit>)
      requires Invariant(St(), NOTHING) && Quiescent(St())
      requires HeapOk()
      modifies `t, `d, `lclauses, `nextCid, `locked, `counts, `mtcls, `oclauses, `conflict
      modifies `alstail, `adecidelevel, `failedAssumption, heap`rank, heap`heap, heap`pos
      ensures HeapOk()
      ensures t == old(t).(rsn := t.rsn) && Settled(St())
      ensures lit.Some? ==>
        failedAssumption.None? && Unassigned(t, lit.value) && Invariant(DecideState(St(), lit.value), NOTHING)
      ensures lit.None? ==> Invariant(St(), NOTHING)
      ensures NextAssumption(t.lev, als, old(alstail), alstail, lit, failedAssumption)
      ensures lit.Some? ==> adecidelevel == t.dl + 1
      ensures failedAssumption.None? ==> t == old(t) && unchanged(heap)
      ensures failedAssumption.Some? ==> lit.None? && Lost(St(), failedAssumption.value)
    {
      hide HeapOk, Invariant, Quiescent, Settled, AssumeState, DecideState, Lost, Unassigned;
      QuiescentFacts(St());
      InvAls(St());
      while alstail < |als|
        invariant Invariant(St(), NOTHING) && Quiescent(St()) && Settled(St())
        invariant failedAssumption.None? && alstail <= |als| && t == old(t) && HeapOk() && unchanged(heap)
        invariant old(alstail) <= alstail && AllTrue(t.lev, als, old(alstail), alstail)
        decreases |als| - alstail
      {
        ghost var s := St();
        var l := als[alstail];
        if -l in t.lev {
          FailAssumption();
          return None;
        }
        if l in t.lev {
          SkipAssumption();
          QuiescentFacts(St());
          continue;
        }
        alstail := alstail + 1;
        adecidelevel := t.dl + 1;
        InvKeys(s);
        FreeIs(t, l);
        AssumeKeeps(s);
        AssumeIs(s, St());
        return Some(l);
      }
      return None;
    }

    /** An unassigned literal, once all assumptions are true. If a 2 is drawn its variable is picked at random;
        otherwise it is the greatest one, as long as no variables collapsed. The phase is left open. */
    method ChooseDecision() returns (lit: Lit, draw: nat, ghost how: Choice)
      requires Indexed(t) && |t.lits| < maxVar && HeapOk()
      modifies heap`heap, heap`pos
      ensures HeapOk() && (old(heap.Sorted()) ==> heap.Sorted())
      ensures 1 <= Var(lit) <= maxVar && lit !in t.lev && -lit !in t.lev
      ensures 1 <= draw <= Stride.RDECIDE && (draw == 2 <==> how.Walked?)
      ensures !how.Assumption?
      ensures ChosenBy(maxVar, t.lev, heap.rank, !heap.past.collapsed || old(heap.Sorted()), Var(lit), how)
    {
      hide Heap.Ordered, Heap.Greater, Heap.Known, Heap.Placed, Indexed, Stride.Drawn;
      FreeExists(maxVar, t);
      var undef := FreeVars(maxVar, t.lev);
      ghost var u: nat :| 1 <= u <= maxVar && Undef(t.lev, u);
      assert undef[u];
      draw :| 1 <= draw <= Stride.RDECIDE;
      var start: nat :| 1 <= start <= maxVar;
      var drawn: nat :| 1 <= drawn <= maxVar;
      var v := Stride.Rdecide(undef, maxVar, draw, start, drawn);
      how := Walked(start, drawn);
      if v == 0 {
        v := heap.Sdecide(t.lev);
        how := Scored;
      }
      if * {
        return v, draw, how;
      } else {
        return -(v as int), draw, how;
      }
    }

    method AssignDecision(lit: Lit)
      requires HeapOk()
      modifies `t
      ensures t == Decide(old(t), lit) && HeapOk()
    {
      heap.WaitingMore(t.lev, Decide(t, lit).lev);
      t := t.(dl := t.dl + 1);
      t := Extend(t, lit, Decision);
    }

    /** Opens a new level with an unassigned literal. */
    method OpenLevel(lit: Lit)
      requires HeapOk() && Settled(St()) && Unassigned(t, lit) && t.lev.Keys == t.pos.Keys
      requires Invariant(DecideState(St(), lit), NOTHING)
      modifies `t, `decisions
      ensures Invariant(St(), NOTHING) && Synced(St()) && HeapOk() && conflict.NoClause? && mtcls.None?
      ensures t == Decide(old(t), lit) && old(t).lits <= t.lits && |t.lits| == |old(t).lits| + 1
      ensures decisions == old(decisions) + 1
      ensures t.lev == old(t).lev[lit := old(t).dl + 1] && lit !in old(t).lev
    {
      hide HeapOk, Invariant, Synced, Settled, DecideState, Unassigned;
      ghost var u := St();
      AssignDecision(lit);
      decisions := decisions + 1;
      DecideIs(u, St(), lit);
    }

    // ---------- deleting clauses ----------

    /** Takes the clauses of del off the clause stacks. */
    method CollectStacks(del: set<Cid>)
      modifies `oclauses, `lclauses, `counts
      ensures oclauses == Without(old(oclauses), del) && lclauses == Without(old(lclauses), del)
      ensures counts == CountOff(
        CountOff(old(counts), false, Count(d.cls, {}, old(oclauses)), Count(d.cls, {}, oclauses)),
        true, Count(d.cls, {}, old(lclauses)), Count(d.cls, {}, lclauses))
    {
      hide Without, Count, CountOff;
      var os, ls, k;
      os, k := CollectStack(d.cls, oclauses, false, del, counts);
      ls, k := CollectStack(d.cls, lclauses, true, del, k);
      oclauses, lclauses, counts := os, ls, k;
    }

    /** Unlinks the clauses of del from all lists and deletes them. */
    method DeleteClauses(del: set<Cid>, ghost s: State)
      requires StoreInv(s) && d == s.D && t == s.T && maxVar == s.n
      modifies `d
      ensures Purged(s.D, d, del) && AllTrimmed(s.T.lev, s.D.impls, d.impls)
      ensures forall c :: c in d.cls <==> c in s.D.cls && c !in del
      ensures forall c :: c in d.cls ==> d.cls[c] == s.D.cls[c]
    {
      hide At, Without, Trimmed, StoreInv, Purged, AllTrimmed;
      var impls := TrimLists(maxVar, t.lev, d.impls);
      var htps := PurgeLists(maxVar, d.htps, del);
      var dhtps := PurgeLists(maxVar, d.dhtps, del);
      var cls := map c | c in d.cls && c !in del :: d.cls[c];
      d := Store(cls, d.learned - del, d.watched - del, htps, dhtps, impls);
      PurgedAll(s, d, del);
    }

    /** How many literals are true at top level. */
    function Fixed(): nat
      reads this
    {
      FixedCount(t.lev, t.lits)
    }

    /** Deletes the clauses of del and the binary clauses that are satisfied at top level. */
    method CollectClauses(del: set<Cid>)
      requires Invariant(St(), NOTHING) && Settled(St()) && CanCollect(St(), del)
      modifies `d, `oclauses, `lclauses, `counts
      ensures Invariant(St(), NOTHING) && Collected(old(St()), St(), del)
    {
      hide Invariant, CanCollect, Collected, At, Without, Count;
      hide StoreInv, CountersOf, CountOff, Purged, AllTrimmed, TallyOk;
      ghost var s := St();
      CollectFacts(s, del);
      CollectStacks(del);
      DeleteClauses(del, s);
      CollectedCounts(s, d.cls, del, oclauses, lclauses, counts);
      CollectedIs(s, St(), del);
      CollectKeeps(s, St(), del);
    }

    /** Deletes a share of the learned clauses. */
    method Reduce(percentage: nat) returns (ghost gone: set<Cid>)
      requires Invariant(St(), NOTHING) && Settled(St()) && percentage <= 100
      modifies `d, `oclauses, `lclauses, `counts, `lreduce, `fsimplify
      ensures Invariant(St(), NOTHING) && Settled(St()) && fsimplify == Fixed()
      ensures CanCollect(old(St()), gone)
      ensures if gone == {} then St() == old(St()) else Collected(old(St()), St(), gone)
      ensures old(counts).llocked >= 0
      ensures Reduction(old(t).lev, old(d).cls, old(locked), old(oclauses), old(lclauses),
        old(fsimplify) < old(Fixed()), old(counts).llocked, percentage, gone)
      ensures lreduce == if forall c :: c in gone && c in old(lclauses) ==> !IsLarge(old(d).cls, c)
                         then old(lreduce) * 110 / 100 else old(lreduce)
    {
      hide Invariant, CanCollect, Collected, Settled, Victim, Unlocked, Reduction, IsLarge, FixedCount;
      ghost var s := St();
      ReduceFacts(s);
      var del, lcollect :=
        ChooseVictims(t.lev, d.cls, locked, oclauses, lclauses, fsimplify < Fixed(), counts, percentage);
      VictimsOk(s, del);
      gone := del;
      fsimplify := Fixed();
      if del != {} {
        CollectClauses(del);
        CollectedSettled(s, St(), del);
      }
      if lcollect == 0 {
        lreduce := lreduce * 110 / 100;
      }
    }

    /** Goes back to top level and deletes the clauses satisfied there. */
    method Simplify()
      requires Invariant(St(), NOTHING) && Settled(St()) && HeapOk()
      modifies `t, `d, `locked, `counts, `wdone, `bdone, `ttail, `ttail2, `conflict, `adecidelevel, `alstail
      modifies `oclauses, `lclauses, `lsimplify, `fsimplify, heap`heap, heap`pos
      ensures Invariant(St(), NOTHING) && Settled(St()) && t.dl == 0 && HeapOk()
      ensures Fixed() == old(Fixed()) && fsimplify == Fixed() && TopKept(old(t), t)
      ensures AllSatisfiedGone(t, d, locked)
      ensures SimplifiedTo(old(Now()), Now())
    {
      hide HeapOk, Invariant, Settled, AtTop, Simplified, SimplifiedTo, FixedCount, AllSatisfiedGone, TopKept, Pause;
      hide St;
      ghost var c := Now();
      ghost var k := GoTop();
      ghost var m := Now();
      DeleteSatisfied();
      StParts();
      SimplifiedIs(c, m, Now(), k);
    }

    /** Goes back to top level unless the search is there. */
    method GoTop() returns (ghost k: nat)
      requires Invariant(St(), NOTHING) && Settled(St()) && HeapOk()
      modifies `t, `d, `locked, `counts, `wdone, `bdone, `ttail, `ttail2, `conflict, `adecidelevel, `alstail
      modifies heap`heap, heap`pos
      ensures Invariant(St(), NOTHING) && Settled(St()) && t.dl == 0 && HeapOk()
      ensures Fixed() == old(Fixed()) && TopKept(old(t), t)
      ensures AtTop(old(St()), St(), k)
    {
      hide HeapOk, Invariant, Settled, Undone, FixedCount, TopKept, St;
      StParts();
      k := 0;
      TopKeptSelf(t);
      if t.dl > 0 {
        k := UndoTop(St());
      }
    }

    /** Deletes the clauses satisfied at top level. */
    method DeleteSatisfied()
      requires Invariant(St(), NOTHING) && Settled(St())
      modifies `d, `counts, `oclauses, `lclauses, `lsimplify, `fsimplify
      ensures Invariant(St(), NOTHING) && Settled(St()) && fsimplify == Fixed()
      ensures AllSatisfiedGone(t, d, locked) && Simplified(old(St()), St())
      ensures lsimplify == propagations + Pause(counts)
    {
      hide Invariant, CanCollect, Collected, Settled, Satisfied, TopSatisfied, Simplified, FixedCount, AllSatisfiedGone;
      ghost var u := St();
      var del := MarkSatisfied(t.lev, d.cls, locked, oclauses);
      var more := MarkSatisfied(t.lev, d.cls, locked, lclauses);
      SatisfiedOk(u, del + more);
      CollectClauses(del + more);
      CollectedSettled(u, St(), del + more);
      SatisfiedGone(u, St(), del + more);
      CountsNonNegative(St());
      SimplifyLater();
    }

    /** Simplifies again only after some propagations, the more the more literals there are. */
    method SimplifyLater()
      requires counts.olits + counts.llits >= 0
      modifies `lsimplify, `fsimplify
      ensures fsimplify == Fixed()
      ensures lsimplify == propagations + Pause(counts)
    {
      var delta := 10 * (counts.olits + counts.llits) + 100000;
      if delta > 2000000 {
        delta := 2000000;
      }
      lsimplify := propagations + delta;
      fsimplify := Fixed();
    }

    // ---------- restarts ----------

    method IncLrestart()
      modifies `lubycnt, `lrestart
      ensures lubycnt == old(lubycnt) + 1 && lrestart == conflicts + 100 * LubyOf(lubycnt)
    {
      lubycnt := lubycnt + 1;
      var delta := Luby(lubycnt);
      lrestart := conflicts + 100 * delta;
    }

    method InitRestart()
      modifies `lubycnt, `lrestart
      ensures lubycnt == 1 && lrestart == conflicts + 100 * LubyOf(1)
    {
      lubycnt := 0;
      IncLrestart();
    }

    /** Goes back to top level, unless many variables changed their value lately, and sets the next restart. */
    method Restart() returns (skip: bool, ghost k: nat)
      requires Invariant(St(), NOTHING) && Settled(St()) && t.dl > 0 && HeapOk()
      modifies `t, `d, `locked, `counts, `wdone, `bdone, `ttail, `ttail2, `conflict, `adecidelevel, `alstail
      modifies `lubycnt, `lrestart, heap`heap, heap`pos
      ensures HeapOk()
      ensures Invariant(St(), NOTHING) && Settled(St()) && Fixed() == old(Fixed()) && TopKept(old(t), t)
      ensures !old(Satisfied()) ==> !Satisfied()
      ensures lubycnt == old(lubycnt) + 1 && lrestart == conflicts + 100 * LubyOf(lubycnt)
      ensures if skip then St() == old(St()) else t.dl == 0 && Undone(old(St()), St(), k, 0)
    {
      hide HeapOk, Invariant, Settled, Undone;
      skip, k := *, 0;
      if !skip {
        InvLevels(St());
        k := UndoTop(St());
      }
      IncLrestart();
    }

    // ---------- the search ----------

    /** All assumptions and all variables are assigned. */
    function Satisfied(): bool
      reads this
    {
      alstail == |als| && |t.lits| == maxVar
    }

    function NeedToReduce(): bool
      reads this
    {
      counts.nlclauses >= lreduce + counts.llocked
    }

    ghost function W(): nat
      reads this
    {
      Weight(maxVar, t.lev, t.lits)
    }

    /** The search goes on; K is the restart that will not be reached. */
    ghost predicate Running(K: nat)
      reads this, heap
    {
      && Invariant(St(), NOTHING) && Synced(St()) && HeapOk()
      && mtcls.None? && failedAssumption.None?
      && isimplify <= Fixed() && fsimplify <= Fixed()
      && IsPeak(K, TopWeight(maxVar)) && Spaced(K, lubycnt, lrestart, conflicts, TopWeight(maxVar), W())
    }

    ghost function Gauge(K: nat): Measure
      reads this
    {
      Measure(isimplify, fsimplify, K - lubycnt, W(), alstail)
    }

    /** Propagates unless there is a conflict already. */
    method Propagate(ghost K: nat)
      requires Running(K)
      modifies `t, `d, `lclauses, `nextCid, `locked, `counts, `mtcls
      modifies `oclauses, `conflict, `wdone, `bdone, `ttail, `ttail2, `propagations, heap`rank, heap`heap, heap`pos
      ensures Running(K) && (Closer(old(Gauge(K)), Gauge(K)) || Gauge(K) == old(Gauge(K)))
      ensures conflict.NoClause? ==> Settled(St())
      ensures Settled(old(St())) ==> t == old(t) && conflict.NoClause?
      ensures TopKept(old(t), t)
    {
      hide HeapOk, Invariant, Synced, Grows, IsPeak, Spaced, Weight, FixedCount;
      if conflict.NoClause? {
        ghost var s := St();
        Bcp();
        GrowsProgress(s, St());
        GrowsTopKept(s, St());
        SpacedLonger(K, lubycnt, lrestart, conflicts, TopWeight(maxVar), old(W()), conflicts, W());
        BcpSettled(s, St());
      }
    }

    /** The literal to decide next: an assumption, or any literal once all assumptions are true. */
    method PickLiteral() returns (lit: Option<Lit>, ghost how: Choice)
      requires Invariant(St(), NOTHING) && Quiescent(St()) && HeapOk()
      modifies `t, `d, `lclauses, `nextCid, `locked, `counts, `mtcls, `oclauses, `conflict
      modifies `alstail, `adecidelevel, `failedAssumption, heap`rank, heap`heap, heap`pos
      ensures t == old(t).(rsn := t.rsn) && Settled(St()) && HeapOk()
      ensures lit.Some? ==>
        failedAssumption.None? && Unassigned(t, lit.value) && Invariant(DecideState(St(), lit.value), NOTHING)
      ensures lit.None? ==> Invariant(St(), NOTHING)
      ensures lit.None? && failedAssumption.None? ==> Satisfied()
      ensures failedAssumption.Some? ==> lit.None? && Lost(St(), failedAssumption.value)
      ensures failedAssumption.None? ==> t == old(t) && heap.rank == old(heap.rank)
      ensures NextAssumption(t.lev, als, old(alstail), alstail, if how.Assumption? then lit else None, failedAssumption)
      ensures lit.Some? && how.Assumption? ==> adecidelevel == t.dl + 1
      ensures lit.Some? && !how.Assumption? ==>
        ChosenBy(maxVar, t.lev, heap.rank, !heap.past.collapsed || old(heap.Sorted()), Var(lit.value), how)
    {
      hide HeapOk, Invariant, Settled, Lost, DecideState, Quiescent, Unassigned, ChosenBy, AllTrue, Heap.Ordered;
      how := Assumption;
      lit := Adecide();
      if lit.Some? || failedAssumption.Some? || Satisfied() {
        return;
      }
      SettledSynced(St());
      InvKeys(St());
      InvFits(St());
      var free, draw;
      free, draw, how := ChooseDecision();
      FreeIs(t, free);
      FreeDecision(St(), free);
      return Some(free), how;
    }

    /** Decides the next assumption, or any variable once all assumptions are true. No decision is needed if all are
        assigned. */
    method MakeDecision() returns (next: Option<Lit>, ghost how: Choice)
      requires Invariant(St(), NOTHING) && Quiescent(St()) && HeapOk()
      modifies `t, `d, `lclauses, `nextCid, `locked, `counts, `mtcls, `oclauses, `conflict
      modifies `alstail, `adecidelevel, `failedAssumption, `decisions, heap`rank, heap`heap, heap`pos
      ensures Invariant(St(), NOTHING) && HeapOk() && mtcls.None?
      ensures next.None? ==> Settled(St()) && t == old(t).(rsn := t.rsn)
      ensures next.Some? ==>
        && failedAssumption.None? && Synced(St()) && conflict.NoClause?
        && next.value !in old(t).lev && t == Decide(old(t), next.value)
      ensures next.None? && failedAssumption.None? ==> Satisfied()
      ensures failedAssumption.Some? ==> next.None? && Lost(St(), failedAssumption.value)
      ensures MaybeDecided(old(Now()), Now())
      ensures OneDecision(if failedAssumption.Some? then Some(Unsatisfiable) else None, old(decisions))
      ensures next.Some? && !how.Assumption? ==>
        ChosenBy(maxVar, old(t).lev, heap.rank, !heap.past.collapsed || old(heap.Sorted()), Var(next.value), how)
    {
      hide HeapOk, Invariant, Synced, Settled, Lost, St;
      hide DecideState, Quiescent, Unassigned, ChosenBy, NextAssumption, Heap.Ordered;
      StParts();
      ghost var s, c := St(), Now();
      next, how := PickLiteral();
      StParts();
      SettledSynced(St());
      if next.Some? {
        SameKeys(s, St());
        OpenLevel(next.value);
        StParts();
        assert DecidedTo(c, Now(), next, how.Assumption?);
      } else {
        assert DecidedTo(c, Now(), next, how.Assumption?);
      }
    }

    /** A decision brings the search closer to its end. */
    method NextDecision(ghost K: nat) returns (next: Option<Lit>, ghost how: Choice)
      requires Running(K) && Settled(St()) && !Satisfied()
      modifies `t, `d, `lclauses, `nextCid, `locked, `counts, `mtcls, `oclauses, `conflict
      modifies `alstail, `adecidelevel, `failedAssumption, `decisions, heap`rank, heap`heap, heap`pos
      ensures failedAssumption.None? ==> Running(K) && Closer(old(Gauge(K)), Gauge(K))
      ensures failedAssumption.Some? ==> Invariant(St(), NOTHING) && Done(Unsatisfiable)
      ensures mtcls.None? && TopKept(old(t), t)
      ensures MaybeDecided(old(Now()), Now())
      ensures OneDecision(if failedAssumption.Some? then Some(Unsatisfiable) else None, old(decisions))
      ensures next.Some? ==> t == Decide(old(t), next.value)
      ensures next.Some? && !how.Assumption? ==>
        ChosenBy(maxVar, old(t).lev, heap.rank, !heap.past.collapsed || old(heap.Sorted()), Var(next.value), how)
    {
      hide HeapOk, Invariant, Synced, IsPeak, Spaced, Weight, FixedCount, Settled, Lost;
      hide Unassigned, ChosenBy, MaybeDecided, OneDecision, Heap.Ordered, Now;
      ghost var s := St();
      SettledSynced(s);
      InvAls(s);
      next, how := MakeDecision();
      if next.None? {
        SettledSynced(St());
        InvAls(St());
        return;
      }
      DecidedProgress(s, St(), next.value);
      DecidedTopKept(s.T, t, next.value);
      SpacedLonger(K, lubycnt, lrestart, conflicts, TopWeight(maxVar), old(W()), conflicts, W());
    }

    /** Handles a conflict. The search is over if it occurred at top level. */
    method ResolveConflict(ghost K: nat) returns (ghost l: Lit)
      requires Running(K) && !conflict.NoClause?
      modifies `t, `d, `lclauses, `nextCid, `locked, `counts, `mtcls, `oclauses
      modifies `conflict, `wdone, `bdone, `ttail, `ttail2, `adecidelevel, `alstail, `conflicts
      modifies `lreduce, `lreduceadjustcnt, `lreduceadjustinc, heap
      ensures mtcls.None? ==> Running(K) && Closer(old(Gauge(K)), Gauge(K))
      ensures mtcls.Some? ==> Done(Unsatisfiable)
      ensures TopKept(old(t), t) && Heap.Later(old(heap.past), heap.past)
      ensures var s := old(St());
        Heap.BumpsMore(old(heap.Scored()), heap.Scored(),
          MetVars(s.T, s.D.cls, ConflictLits(s.conflict, s.D.cls)), FixedNow(s.T, t, l))
    {
      hide HeapOk, Invariant, Synced, Jumped, IsPeak, Spaced, Weight, FixedCount;
      hide Heap.BumpsMore, MetVars, Heap.Later, FixedNow;
      ghost var s := St();
      ghost var k;
      k, l := BumpAndBacktrack();
      if s.T.dl > 0 {
        JumpedProgress(s, t, k, l);
        JumpedTopKept(s, t, k, l);
        SpacedLonger(K, lubycnt, lrestart, old(conflicts), TopWeight(maxVar), old(W()), conflicts, W());
      }
    }

    /** New top-level literals after a conflict: the restart sequence starts again. */
    method Iteration(backtracked: bool, ghost K0: nat) returns (ghost K: nat)
      requires Running(K0) && Settled(St()) && !Satisfied()
      modifies `lubycnt, `lrestart, `isimplify
      ensures Running(K) && !Satisfied() && (Closer(old(Gauge(K0)), Gauge(K)) || Gauge(K) == old(Gauge(K0)))
      ensures Iterated(backtracked, old(Now()), Now())
    {
      hide HeapOk, Invariant, Settled, Synced, IsPeak, Weight, FixedCount;
      K := K0;
      if backtracked && t.dl == 0 && isimplify < Fixed() {
        InitRestart();
        isimplify := Fixed();
        K := NewPeak(1, TopWeight(maxVar));
        SettledSynced(St());
      }
    }

    /** Simplifies because of new top-level literals. */
    method MaybeSimplify(ghost K: nat) returns (ghost K': nat)
      requires Running(K) && Settled(St())
      modifies `t, `d, `locked, `counts, `wdone, `bdone, `ttail, `ttail2, `conflict, `adecidelevel, `alstail
      modifies `oclauses, `lclauses, `lsimplify, `fsimplify, heap`heap, heap`pos
      ensures Running(K') && Settled(St()) && TopKept(old(t), t)
      ensures Closer(old(Gauge(K)), Gauge(K')) || Gauge(K') == old(Gauge(K))
      ensures MaybeSimplified(old(Now()), Now())
    {
      hide HeapOk, TopKept, Invariant, Settled, Synced, IsPeak, AllSatisfiedGone, Weight, FixedCount, SimplifiedTo;
      K' := K;
      TopKeptSelf(t);
      if fsimplify < Fixed() && lsimplify <= propagations {
        Simplify();
        K' := NewPeak(lubycnt, TopWeight(maxVar));
        SettledSynced(St());
      }
    }

    /** Reduces the learned clauses if there are too many of them. */
    method MaybeReduce(ghost K: nat)
      requires Running(K) && Settled(St())
      modifies `d, `oclauses, `lclauses, `counts, `lreduce, `fsimplify
      ensures Running(K) && Settled(St()) && Satisfied() == old(Satisfied())
      ensures Closer(old(Gauge(K)), Gauge(K)) || Gauge(K) == old(Gauge(K))
      ensures MaybeReduced(old(Now()), Now())
    {
      hide HeapOk, Invariant, Settled, Synced, IsPeak, Weight, FixedCount, Collected, CanCollect, Reduction, IsLarge;
      if NeedToReduce() {
        ghost var gone := Reduce(50);
        assert ReducedTo(old(Now()), Now(), gone);
        SettledSynced(St());
      }
    }

    /** Restarts if enough conflicts occurred since the last time. */
    method MaybeRestart(ghost K: nat)
      requires Running(K) && Settled(St()) && !Satisfied()
      modifies `t, `d, `locked, `counts, `wdone, `bdone, `ttail, `ttail2, `conflict, `adecidelevel, `alstail
      modifies `lubycnt, `lrestart, heap`heap, heap`pos
      ensures Running(K) && Settled(St()) && !Satisfied() && TopKept(old(t), t)
      ensures Closer(old(Gauge(K)), Gauge(K)) || Gauge(K) == old(Gauge(K))
      ensures MaybeRestarted(old(Now()), Now())
    {
      hide HeapOk, Invariant, Settled, Synced, IsPeak, Spaced, Weight, FixedCount, Undone;
      if conflicts >= lrestart && t.dl > 2 {
        InvWeight(St());
        ghost var w := W();
        ghost var lc, lr := lubycnt, lrestart;
        ghost var skip, k := Restart();
        assert RestartedTo(old(Now()), Now(), k);
        SpacedRestart(K, lc, lr, conflicts, TopWeight(maxVar), w, W());
        SettledSynced(St());
      }
    }

    /** After so many decisions the search may be given up. */
    ghost predicate AtLimit(l: int, count: int, interruptible: bool)
      reads `lpropagations, `propagations
    {
      || (l >= 0 && count >= l)
      || (lpropagations.Some? && propagations >= lpropagations.value)
      || (interruptible && count > 0 && count % 1024 == 0)
    }

    /** A decision or propagation limit is reached, or the search is interrupted from outside. */
    method LimitReached(l: int, count: nat, interruptible: bool) returns (r: bool)
      ensures (l >= 0 && count >= l) || (lpropagations.Some? && propagations >= lpropagations.value) ==> r
      ensures r ==> AtLimit(l, count, interruptible)
    {
      if l >= 0 && count >= l {
        return true;
      }
      if interruptible && count > 0 && count % 1024 == 0 {
        var stop: bool := *;
        if stop {
          return true;
        }
      }
      return lpropagations.Some? && propagations >= lpropagations.value;
    }

    /** At top level, before or after a search. */
    ghost predicate Ready()
      reads this, heap
    {
      && Invariant(St(), NOTHING) && Synced(St()) && HeapOk()
      && t.dl == 0 && failedAssumption.None? && fsimplify <= Fixed()
    }

    ghost predicate Done(r: Verdict)
      reads this, heap
    {
      Invariant(St(), NOTHING) && Synced(St()) && HeapOk() && AtRest(St()) && Answered(St(), r) && fsimplify <= Fixed()
    }

    /** Propagates at top level, where a conflict means that there is no model. */
    method PropagateTop()
      requires Ready()
      modifies `t, `d, `lclauses, `nextCid, `locked, `counts, `mtcls, `oclauses, `conflict
      modifies `wdone, `bdone, `ttail, `ttail2, `adecidelevel, `alstail, `conflicts, `propagations
      modifies `lreduce, `lreduceadjustcnt, `lreduceadjustinc, heap
      ensures Ready() && AtRest(St()) && (mtcls.None? ==> Settled(St())) && TopKept(old(t), t)
      ensures (old(mtcls).Some? ==> mtcls.Some?) && Heap.Later(old(heap.past), heap.past)
    {
      hide HeapOk, Invariant, Settled, Synced, FixedCount, Weight, Grows, Jumped;
      hide Heap.BumpsAndFixes, MetVars;
      ghost var s := St();
      if conflict.NoClause? {
        Bcp();
        GrowsProgress(s, St());
        BcpSettled(s, St());
        GrowsTopKept(s, St());
      }
      if !conflict.NoClause? {
        ghost var k, l := Backtrack();
      } else {
        SyncedAtRest(St());
      }
    }

    /** Propagates at top level and simplifies. */
    method StartSat() returns (r: Option<Verdict>, ghost K: nat, ghost path: seq<Config>)
      requires Ready()
      modifies `t, `d, `locked, `counts, `wdone, `bdone, `ttail, `ttail2, `conflict, `adecidelevel, `alstail
      modifies `oclauses, `lclauses, `nextCid, `mtcls, `propagations, `conflicts
      modifies `lsimplify, `fsimplify, `isimplify, `lubycnt, `lrestart, `lreduce
      modifies `lreduceadjustcnt, `lreduceadjustinc, heap
      ensures r.Some? ==> !r.value.Unknown? && Done(r.value)
      ensures r.None? ==> Running(K) && Started(path, Now())
      ensures TopKept(old(t), t) && Heap.Later(old(heap.past), heap.past)
      ensures old(mtcls).Some? ==> mtcls.Some? && r == Some(Unsatisfiable)
    {
      hide HeapOk, Invariant, Settled, Synced, IsPeak, Running, FixedCount, AllSatisfiedGone, Lost, FirstSimplified;
      hide Now, LimitsSet, TopKept;
      K, path := 0, [];
      ghost var T0 := t;
      PropagateTop();
      if mtcls.Some? {
        return Some(Unsatisfiable), K, path;
      }
      SettledSynced(St());
      if Satisfied() {
        return Some(Satisfiable), K, path;
      }
      ghost var T1, c := t, Now();
      FirstSimplify();
      TopKeptOn(T0, T1, t);
      SettledSynced(St());
      if Satisfied() {
        return Some(Satisfiable), K, path;
      }
      path := [c, Now()];
      InitLimits();
      K := RunningFirst();
      return None, K, path;
    }

    method FirstSimplify()
      requires Invariant(St(), NOTHING) && Settled(St()) && HeapOk() && t.dl == 0 && fsimplify <= Fixed()
      modifies `t, `d, `locked, `counts, `wdone, `bdone, `ttail, `ttail2, `conflict, `adecidelevel, `alstail
      modifies `oclauses, `lclauses, `lsimplify, `fsimplify, heap`heap, heap`pos
      ensures Invariant(St(), NOTHING) && Settled(St()) && HeapOk() && t.dl == 0 && fsimplify <= Fixed()
      ensures TopKept(old(t), t) && FirstSimplified(old(Now()), Now())
    {
      hide HeapOk, Invariant, Settled, FixedCount, AllSatisfiedGone, SimplifiedTo, TopKept, St;
      TopKeptSelf(t);
      if lsimplify <= propagations {
        Simplify();
      }
    }

    method InitLimits()
      modifies `isimplify, `lubycnt, `lrestart, `lreduce
      ensures LimitsSet(old(Now()), Now())
      ensures lubycnt == 1 && lrestart == conflicts + 100 * LubyOf(1) && isimplify == Fixed()
    {
      hide FixedCount, LubyOf, St;
      StParts();
      InitRestart();
      if lreduce == 0 {
        lreduce := 1000;
      }
      isimplify := Fixed();
    }

    lemma RunningFirst() returns (K: nat)
      requires Invariant(St(), NOTHING) && Settled(St()) && failedAssumption.None? && fsimplify <= Fixed() && HeapOk()
      requires lubycnt == 1 && lrestart == conflicts + 100 * LubyOf(1) && isimplify == Fixed()
      ensures Running(K)
    {
      hide HeapOk, Invariant, Settled, Synced, IsPeak;
      K := NewPeak(1, TopWeight(maxVar));
      SettledSynced(St());
    }

    /** One pass of the search loop: propagation, then a conflict is resolved or the round goes on to a decision. */
    method Pass(l: int, count: nat, interruptible: bool, backtracked: bool, ghost K: nat)
      returns (r: Option<Verdict>, conflicting: bool, ghost K': nat)
      requires Running(K)
      modifies `t, `d, `locked, `counts, `wdone, `bdone, `ttail, `ttail2, `conflict, `adecidelevel, `alstail
      modifies `oclauses, `lclauses, `nextCid, `mtcls, `failedAssumption, `decisions, `propagations, `conflicts
      modifies `lsimplify, `fsimplify, `isimplify, `lubycnt, `lrestart, `lreduce
      modifies `lreduceadjustcnt, `lreduceadjustinc, heap
      ensures r.Some? ==> Done(r.value)
      ensures r == Some(Unknown) ==> AtLimit(l, count, interruptible)
      ensures r.None? ==> Running(K') && Closer(old(Gauge(K)), Gauge(K'))
      ensures TopKept(old(t), t) && Heap.Later(old(heap.past), heap.past)
      ensures old(Satisfied() && Settled(St())) ==> r == Some(Satisfiable)
      ensures if conflicting then decisions == old(decisions) else OneDecision(r, old(decisions))
      ensures !conflicting && r.None? && l >= 0 ==> count < l
    {
      hide Running, Settled, Gauge, Closer, Invariant, Synced, Done, FixedCount, Weight, TopKept;
      hide OneDecision, AtLimit, Rounded, Now, MetVars, Heap.BumpsMore, FixedNow;
      ghost var g0, T0 := Gauge(K), t;
      K' := K;
      Propagate(K);
      ghost var g1, T1 := Gauge(K), t;
      if !conflict.NoClause? {
        ghost var l := ResolveConflict(K);
        TopKeptOn(T0, T1, t);
        CloserOn(g0, g1, Gauge(K));
        return if mtcls.Some? then Some(Unsatisfiable) else None, true, K';
      }
      ghost var path;
      r, K', path := Round(l, count, interruptible, backtracked, K);
      conflicting := false;
      TopKeptOn(T0, T1, t);
      CloserOn(g0, g1, Gauge(K'));
    }

    /** Decides whether the formula and the assumptions have a model. Without limits there is always an answer. */
    method Sat(l: int, interruptible: bool) returns (r: Verdict)
      requires Ready()
      modifies `t, `d, `locked, `counts, `wdone, `bdone, `ttail, `ttail2, `conflict, `adecidelevel, `alstail
      modifies `oclauses, `lclauses, `nextCid, `mtcls, `failedAssumption, `decisions, `propagations, `conflicts
      modifies `lsimplify, `fsimplify, `isimplify, `lubycnt, `lrestart, `lreduce
      modifies `lreduceadjustcnt, `lreduceadjustinc, heap
      ensures Done(r)
      ensures r.Unknown? ==> AtLimit(l, decisions - old(decisions), interruptible)
      ensures decisions >= old(decisions) && (l >= 0 ==> decisions <= old(decisions) + l)
      ensures TopKept(old(t), t) && Heap.Later(old(heap.past), heap.past)
      ensures old(mtcls).Some? ==> mtcls.Some?
    {
      hide Running, Settled, Invariant, Synced, Done, FixedCount, Weight, TopKept, Started, Now, AtLimit, Satisfied;
      ghost var T0 := t;
      var count: nat := 0;
      var verdict;
      ghost var K: nat;
      ghost var path;
      verdict, K, path := StartSat();
      var backtracked := false;
      while verdict.None?
        invariant verdict.None? ==> Running(K)
        invariant verdict.Some? ==> Done(verdict.value)
        invariant verdict == Some(Unknown) ==> AtLimit(l, decisions - old(decisions), interruptible)
        invariant verdict.None? ==> count == decisions - old(decisions) || (Satisfied() && Settled(St()))
        invariant decisions >= old(decisions) && (l >= 0 ==> decisions <= old(decisions) + l)
        invariant verdict.None? && l >= 0 ==> count <= l
        invariant TopKept(T0, t) && (old(mtcls).Some? ==> mtcls.Some? && verdict.Some?)
        invariant Heap.Later(old(heap.past), heap.past)
        decreases verdict.None?, maxVar - isimplify, maxVar - fsimplify, K - lubycnt, TopWeight(maxVar) - W(),
          |als| - alstail
      {
        ghost var T1 := t;
        RunningBounds(K);
        verdict, backtracked, K := Pass(l, count, interruptible, backtracked, K);
        TopKeptOn(T0, T1, t);
        if !backtracked {
          count := count + 1;
        }
      }
      r := verdict.value;
    }

    lemma RunningBounds(K: nat)
      requires Running(K)
      ensures isimplify <= maxVar && fsimplify <= maxVar && lubycnt <= K && W() <= TopWeight(maxVar) && alstail <= |als|
    {
      hide Invariant, Synced, IsPeak, Weight, FixedCount;
      InvWeight(St());
      InvAls(St());
    }

    lemma RunningDone(K: nat)
      requires Running(K) && Settled(St())
      ensures Done(Unknown) && (Satisfied() ==> Done(Satisfiable))
      ensures Invariant(St(), NOTHING) && failedAssumption.None? && fsimplify <= Fixed() && HeapOk()
    {
      hide Invariant, Settled, Synced, IsPeak, Spaced, Weight, FixedCount;
      SettledSynced(St());
    }

    /** Unless the search ends, there is one decision more, or none was needed because all variables are assigned. */
    ghost predicate OneDecision(r: Option<Verdict>, before: nat)
      reads this
    {
      if r.None? && decisions != before then decisions == before + 1
      else decisions == before && (r.None? ==> Satisfied() && Settled(St()))
    }

    /** Reduction, restart and decision. */
    method Advance(ghost K: nat) returns (r: Option<Verdict>, ghost path: seq<Config>)
      requires Running(K) && Settled(St()) && !Satisfied()
      modifies `t, `d, `locked, `counts, `wdone, `bdone, `ttail, `ttail2, `conflict, `adecidelevel, `alstail
      modifies `oclauses, `lclauses, `nextCid, `mtcls, `failedAssumption, `decisions
      modifies `fsimplify, `lubycnt, `lrestart, `lreduce, heap`rank, heap`heap, heap`pos
      ensures r == None || r == Some(Unsatisfiable)
      ensures if r.Some? then Done(Unsatisfiable) else Running(K) && Closer(old(Gauge(K)), Gauge(K))
      ensures TopKept(old(t), t) && OneDecision(r, old(decisions))
      ensures |path| == 2 && MaybeReduced(old(Now()), path[0]) && MaybeRestarted(path[0], path[1])
      ensures MaybeDecided(path[1], Now())
    {
      hide Running, Settled, Gauge, Closer, Invariant, Synced, Done, FixedCount, TopKept, AtRest, ChosenBy;
      hide Now, St, MaybeReduced, MaybeRestarted, MaybeDecided;
      ghost var g, T := Gauge(K), t;
      MaybeReduce(K);
      ghost var c1, g1 := Now(), Gauge(K);
      MaybeRestart(K);
      ghost var c2, g2, T2 := Now(), Gauge(K), t;
      CloserOn(g, g1, g2);
      ghost var how;
      var next;
      next, how := NextDecision(K);
      TopKeptOn(T, T2, t);
      CloserOn(g, g2, Gauge(K));
      return if failedAssumption.Some? then Some(Unsatisfiable) else None, [c1, c2];
    }

    /** What happens once nothing is left to propagate: checks, limits, simplification, reduction, restart, decision. */
    method Round(l: int, count: nat, interruptible: bool, backtracked: bool, ghost K: nat)
      returns (r: Option<Verdict>, ghost K': nat, ghost path: seq<Config>)
      requires Running(K) && Settled(St())
      modifies `t, `d, `locked, `counts, `wdone, `bdone, `ttail, `ttail2, `conflict, `adecidelevel, `alstail
      modifies `oclauses, `lclauses, `nextCid, `mtcls, `failedAssumption, `decisions
      modifies `lsimplify, `fsimplify, `isimplify, `lubycnt, `lrestart, `lreduce, heap`rank, heap`heap, heap`pos
      ensures r.Some? ==> Done(r.value)
      ensures if r == Some(Unknown) then AtLimit(l, count, interruptible) else r.None? && l >= 0 ==> count < l
      ensures r.None? ==> Running(K') && Closer(old(Gauge(K)), Gauge(K'))
      ensures TopKept(old(t), t)
      ensures old(Satisfied()) ==> r == Some(Satisfiable)
      ensures OneDecision(r, old(decisions))
      ensures r.None? || r.value.Unsatisfiable? ==> Rounded(backtracked, old(Now()), path, Now())
    {
      hide Running, Settled, Gauge, Closer, Invariant, Synced, Answered, FixedCount, TopKept, AtRest, Done, Satisfied;
      hide Now, St, Iterated, MaybeSimplified, MaybeReduced, MaybeRestarted, MaybeDecided;
      path := [];
      TopKeptSelf(t);
      K' := K;
      RunningDone(K');
      if Satisfied() {
        return Some(Satisfiable), K', path;
      }
      ghost var g0, T0 := Gauge(K), t;
      K' := Iteration(backtracked, K');
      RunningDone(K');
      ghost var g1, c1 := Gauge(K'), Now();
      var limit := LimitReached(l, count, interruptible);
      if limit {
        return Some(Unknown), K', path;
      }
      K' := MaybeSimplify(K');
      RunningDone(K');
      if Satisfied() {
        return Some(Satisfiable), K', path;
      }
      ghost var g2, c2, T2 := Gauge(K'), Now(), t;
      CloserOn(g0, g1, g2);
      r, path := Advance(K');
      path := [c1, c2] + path;
      TopKeptOn(T0, T2, t);
      CloserOn(g0, g2, Gauge(K'));
    }

    /** Goes back to top level. */
    method UndoTop(ghost s: State) returns (ghost k: nat)
      requires s == St() && Invariant(s, NOTHING) && Settled(s) && t.dl > 0 && HeapOk()
      modifies `t, `d, `locked, `counts, `wdone, `bdone, `ttail, `ttail2, `conflict, `adecidelevel, `alstail
      modifies heap`heap, heap`pos
      ensures Invariant(St(), NOTHING) && Settled(St()) && t.dl == 0 && HeapOk()
      ensures Fixed() == old(Fixed()) && |t.lits| < |old(t).lits| && TopKept(old(t), t)
      ensures Undone(old(St()), St(), k, 0)
    {
      hide HeapOk, Invariant, Settled, Undone;
      k := Undo(0, NOTHING);
      WentTop(s, St(), k);
      WentShort(s, St(), k);
      UndoneTopKept(s, St(), k, 0);
    }

    // ---------- the interface ----------

    ghost predicate Answers()
      reads this
    {
      match state
      case READY => true
      case SAT => Answered(St(), Satisfiable)
      case UNSAT => Answered(St(), Unsatisfiable)
      case UNKNOWN => Answered(St(), Unknown)
    }

    ghost predicate Valid()
      reads this, heap
    {
      && Invariant(St(), NOTHING) && Synced(St()) && HeapOk() && fsimplify <= Fixed()
      && (forall l :: l in added ==> 1 <= Var(l) <= maxVar)
      && (state.READY? ==> t.dl == 0 && failedAssumption.None?)
      && (!state.READY? ==> AtRest(St()) && Answers() && added == [])
      && (extracted ==> state.UNSAT? && mtcls.None? && Refuted(F, Core(als, failedVars)))
      && (extracted ==> forall v :: v in failedVars ==> exists a :: a in als && Var(a) == v)
      && (extracted ==> forall a :: a in als ==> (Var(a) in failedVars <==> Reached(a)))
    }

    /** Going back through reasons from the negation of the failed assumption one meets the variable of a. */
    ghost predicate Reached(a: Lit)
      reads `t, `d, `failedAssumption
    {
      failedAssumption.Some? && (DependsOn(t, d.cls, -failedAssumption.value, a)
                                 || DependsOn(t, d.cls, -failedAssumption.value, -a))
    }

    /** What the answer of a search means. */
    ghost predicate Meaning(r: Verdict)
      reads `t, `F, `als, `mtcls
    {
      && (r.Satisfiable? ==> mtcls.None? && Models(Assignment(), F) && Agrees(Assignment(), Assumed(als)))
      && (r.Unsatisfiable? ==> Refuted(F, Assumed(als)) && (mtcls.Some? ==> Refuted(F, {})))
      && (r.Unsatisfiable? && mtcls.None? ==> exists a :: a in als && TopOrAssumed(t, als, a))
      && (r.Unknown? ==> mtcls.None?)
    }

    /** What is kept of the literals added since saving was switched on; a partial assignment that was computed
        belongs to the last model, makes all saved clauses true that can be, and was chosen greedily. */
    ghost predicate Tracked()
      reads `saveorig, `soclauses, `partial, `partials, `added, `state, `t, `maxVar
    {
      && Autarky.SavedPart(saveorig, soclauses, added, maxVar)
      && (partial ==> saveorig && state.SAT? && Autarky.AllMarked(t.lev, partials, Autarky.Ended(soclauses)))
      && (partial ==> Autarky.Greedy(t.lev, Autarky.Ended(soclauses), partials))
      && (partial ==> |partials| <= |Autarky.Ended(soclauses)|)
      && (!partial ==> partials == {})
    }

    /** The saved literals are those of the original clauses. */
    ghost predicate Recorded()
      reads `saveorig, `soclauses, `F, `added
    {
      Autarky.SavedOk(saveorig, soclauses, added, F)
    }

    /** No propagation limit is set, and no interrupt function. */
    ghost predicate Unlimited()
      reads `lpropagations, `interruptible
    {
      lpropagations.None? && !interruptible
    }

    /** The assignment of the last search. */
    ghost function Assignment(): Model
      reads `t
    {
      ModelOf(t)
    }

    constructor ()
      ensures Valid() && state.READY? && F == {} && als == [] && added == [] && maxVar == 0 && Unlimited()
      ensures Tracked() && Recorded() && !saveorig && fresh(heap) && heap.Sorted() && heap.past == Heap.Past(0, false)
      ensures heap.rank == map[] && heap.vinc == SoftFloat.VINC
      ensures propagations == conflicts == decisions == lsimplify == fsimplify == lreduce == 0
      ensures lreduceadjustcnt == lreduceadjustinc == 100
    {
      hide Invariant, Synced, FixedCount, AtRest, Answered, Refuted, Core, Reached;
      maxVar, t, ttail, ttail2, wdone, bdone := 0, EMPTY_TRAIL, 0, 0, 0, 0;
      d := Store(map[], {}, {}, map[], map[], map[]);
      locked, counts, oclauses, lclauses, nextCid := {}, Counters(0, 0, 0, 0, 0), [], [], 0;
      conflict, mtcls, F := NoClause, None, {};
      als, alstail, adecidelevel, failedAssumption := [], 0, 0, None;
      state, added, extracted, failedVars := READY, [], false, {};
      saveorig, soclauses, partial, partials := false, [], false, {};
      propagations, conflicts, decisions, lreduce, lsimplify := 0, 0, 0, 0, 0;
      lreduceadjustcnt, lreduceadjustinc := 100, 100;
      fsimplify, isimplify, lubycnt, lrestart, lpropagations, interruptible := 0, 0, 0, 0, None, false;
      heap := new Heap.VarHeap();
      new;
      EmptyState(St());
    }

    /** Forgets the last search: goes back to top level and drops all assumptions. */
    method ResetIncrementalUsage()
      requires Valid() && !state.READY?
      modifies this, heap`heap, heap`pos
      ensures Valid() && state.READY? && als == [] && added == []
      ensures F == old(F) && maxVar == old(maxVar) && mtcls == old(mtcls) && Unlimited() == old(Unlimited())
      ensures TopKept(old(t), t)
      ensures decisions == old(decisions) && propagations == old(propagations)
      ensures lpropagations == old(lpropagations) && interruptible == old(interruptible)
      ensures !partial && partials == {} && saveorig == old(saveorig) && soclauses == old(soclauses)
    {
      hide Valid, TopKept, Invariant, AtRest, FixedCount;
      BackToTop();
      ClearAssumptions();
      ResetPartial();
    }

    method ResetPartial()
      requires Valid()
      modifies `partial, `partials
      ensures Valid() && !partial && partials == {}
    {
      hide HeapOk, Invariant, Synced, FixedCount, AtRest, Answered, Refuted, Core, Reached;
      partial, partials := false, {};
    }

    method BackToTop()
      requires Valid() && !state.READY?
      modifies `t, `d, `locked, `counts, `wdone, `bdone, `ttail, `ttail2, `conflict, `adecidelevel, `alstail
      modifies heap`heap, heap`pos
      ensures Invariant(St(), NOTHING) && AtRest(St()) && t.dl == 0 && fsimplify <= Fixed() && added == [] && HeapOk()
      ensures TopKept(old(t), t)
    {
      hide HeapOk, Invariant, Synced, Answered, FixedCount, TopKept, Settled, AtRest;
      ghost var s := St();
      TopKeptSelf(t);
      if t.dl > 0 {
        NoMtcls(s);
        AnsweredSettled(s, if state.SAT? then Satisfiable else if state.UNSAT? then Unsatisfiable else Unknown);
        ghost var k := UndoTop(s);
        SettledAtRest(St());
      }
    }

    method ClearAssumptions()
      requires Invariant(St(), NOTHING) && AtRest(St()) && t.dl == 0 && fsimplify <= Fixed() && added == [] && HeapOk()
      modifies `als, `alstail, `adecidelevel, `failedAssumption, `conflict, `extracted, `failedVars, `state
      ensures Valid() && state.READY? && als == []
    {
      hide HeapOk, Invariant, Synced, FixedCount, AtRest;
      ghost var u := St();
      ResetAssumptions();
      ResetKeeps(u, St());
      extracted, failedVars := false, {};
      state := READY;
    }

    method ResetAssumptions()
      modifies `als, `alstail, `adecidelevel, `failedAssumption, `conflict
      ensures St() == old(St()).(als := [], alstail := 0, adl := 0, failed := None, conflict := NoClause)
    {
      als, alstail, adecidelevel, failedAssumption := [], 0, 0, None;
      conflict := NoClause;
    }

    /** Puts new variables on the heap. */
    method IncMaxVar(n: nat)
      requires HeapOk() && maxVar <= n
      modifies `maxVar, heap`maxVar, heap`rank, heap`heap, heap`pos
      ensures HeapOk() && maxVar == n
      ensures Heap.NewRanks(old(heap.rank), heap.rank, old(maxVar), n)
    {
      hide Heap.Known, Heap.Placed, Heap.Ordered, Undef;
      while maxVar < n
        invariant HeapOk() && old(maxVar) <= maxVar <= n
        invariant Heap.NewRanks(old(heap.rank), heap.rank, old(maxVar), maxVar)
      {
        maxVar := maxVar + 1;
        heap.IncMaxVar();
      }
    }

    /** Makes sure the solver knows the variable of a literal. */
    method ImportLit(lit: Lit)
      requires Valid() && state.READY? && lit != 0
      modifies `maxVar, heap`maxVar, heap`rank, heap`heap, heap`pos
      ensures Valid() && maxVar == (if Var(lit) <= old(maxVar) then old(maxVar) else Var(lit))
      ensures Heap.NewRanks(old(heap.rank), heap.rank, old(maxVar), maxVar)
    {
      hide HeapOk, Invariant, Synced, FixedCount;
      if Var(lit) > maxVar {
        ghost var s := St();
        MoreVars(s, NOTHING, Var(lit));
        IncMaxVar(Var(lit));
        SyncedSame(s, St());
      }
    }

    /** Forgets the last search, if there was one. */
    method EnterReady()
      requires Valid()
      modifies this, heap`heap, heap`pos
      ensures Valid() && state.READY? && added == old(added) && F == old(F) && maxVar == old(maxVar)
      ensures mtcls == old(mtcls)
      ensures als == (if old(state).READY? then old(als) else []) && Unlimited() == old(Unlimited())
      ensures TopKept(old(t), t)
      ensures decisions == old(decisions) && propagations == old(propagations)
      ensures lpropagations == old(lpropagations) && interruptible == old(interruptible)
      ensures saveorig == old(saveorig) && soclauses == old(soclauses)
      ensures (old(Tracked()) ==> Tracked() && !partial) && Recorded() == old(Recorded())
    {
      hide Valid, TopKept, Autarky.SavedOk, Autarky.SavedPart, Autarky.AllMarked, Autarky.Greedy;
      TopKeptSelf(t);
      if !state.READY? {
        UnderReset();
        ResetIncrementalUsage();
      }
    }

    /** Adds one literal to the clause under construction; zero ends the clause. */
    method Add(lit: int)
      requires Valid()
      modifies this, heap`maxVar, heap`rank, heap`heap, heap`pos
      ensures Valid() && state.READY?
      ensures lit != 0 ==> added == old(added) + [lit] && F == old(F)
      ensures lit == 0 ==> added == [] && F == old(F) + {old(added)}
      ensures als == (if old(state).READY? then old(als) else []) && Unlimited() == old(Unlimited())
      ensures maxVar == (if Var(lit) <= old(maxVar) then old(maxVar) else Var(lit))
      ensures TopKept(old(t), t)
      ensures saveorig == old(saveorig) && soclauses == old(soclauses) + (if saveorig then [lit] else [])
      ensures (old(Tracked()) ==> Tracked()) && (old(Recorded()) ==> Recorded())
    {
      hide Valid, TopKept, Autarky.SavedOk, Autarky.SavedPart, Autarky.AllMarked, Autarky.Greedy;
      EnterReady();
      ghost var T1 := t;
      SaveLiteral(lit);
      if lit != 0 {
        ImportLit(lit);
        PushLiteral(lit);
      } else {
        SimplifyAndAddOriginalClause();
        TopKeptOn(old(t), T1, t);
      }
      Autarky.SavedStep(saveorig, old(soclauses), old(added), old(F), lit);
      Autarky.SavedPartStep(saveorig, old(soclauses), old(added), old(maxVar), lit, maxVar);
    }

    method SaveLiteral(lit: int)
      requires Valid()
      modifies `soclauses
      ensures Valid() && soclauses == old(soclauses) + if saveorig then [lit] else []
    {
      hide HeapOk, Invariant, Synced, FixedCount, AtRest, Answered, Refuted, Core, Reached;
      if saveorig {
        soclauses := soclauses + [lit];
      }
    }

    lemma UnderReset()
      requires Valid() && !state.READY?
      ensures added == []
    {
      hide Invariant, Synced, Answered, FixedCount;
    }

    method PushLiteral(lit: Lit)
      requires Valid() && state.READY? && 1 <= Var(lit) <= maxVar
      modifies `added
      ensures Valid() && added == old(added) + [lit]
    {
      hide HeapOk, Invariant, Synced, FixedCount;
      added := added + [lit];
    }

    /** Adds the clause under construction to the original clauses. */
    method SimplifyAndAddOriginalClause()
      requires Valid() && state.READY?
      modifies `added, `F, `t, `d, `lclauses, `nextCid, `mtcls, `oclauses, `conflict, `locked, `counts
      modifies heap`rank, heap`heap, heap`pos
      ensures Valid() && added == [] && F == old(F) + {old(added)}
      ensures TopKept(old(t), t)
    {
      hide HeapOk, Invariant, Synced, FixedCount, AddState, TopKept, Proper, Free;
      ghost var s := St();
      ghost var C := added;
      InvProper(s);
      InvTop(s);
      TopKeptSelf(t);
      assert 0 in added ==> 1 <= Var(0);
      var trivial, lits := TrivialClause(t.lev, added);
      added := [];
      F := F + {C};
      if trivial {
        TrivialKeeps(s, C);
        SyncedSame(s, St());
      } else {
        NotTrivial(s, C, lits);
        AddOriginal(s, C, lits);
      }
    }

    method AddOriginal(ghost s: State, ghost C: Clause, lits: Clause)
      requires Invariant(s, NOTHING) && Synced(s) && s.T.dl == 0 && St() == s.(F := s.F + {C})
      requires ClauseOk(maxVar, lits) && 0 !in lits && SameLits(lits, C) && forall l :: l in lits ==> l !in t.lev
      requires HeapOk()
      modifies `t, `d, `lclauses, `nextCid, `mtcls, `oclauses, `conflict, `locked, `counts
      modifies heap`rank, heap`heap, heap`pos
      ensures HeapOk()
      ensures Invariant(St(), NOTHING) && Synced(St()) && t.dl == 0 && failedAssumption == old(failedAssumption)
      ensures Fixed() >= old(Fixed()) && TopKept(old(t), t) && forall l :: l in old(t).lev ==> l in t.lev
    {
      hide HeapOk, Invariant, Synced, FixedCount, AddState, TopKept, Proper, Free, SameLits, ClauseOk;
      ghost var u := St();
      InvProper(s);
      OriginalMissing(s, C, lits);
      NewClauseKeeps(s, C, lits);
      ClauseKnown(maxVar, lits);
      var ref := AddSimplifiedClause(lits, false);
      AddedTrail(u, Missing(C), lits);
      SyncedSame(s, u);
    }

    /** Assumes a literal for the next search. */
    method Assume(lit: Lit)
      requires Valid() && lit != 0
      modifies this, heap`maxVar, heap`rank, heap`heap, heap`pos
      ensures Valid() && state.READY? && F == old(F) && added == old(added) && Unlimited() == old(Unlimited())
      ensures als == (if old(state).READY? then old(als) else []) + [lit]
      ensures mtcls == old(mtcls)
      ensures maxVar == (if Var(lit) <= old(maxVar) then old(maxVar) else Var(lit))
      ensures TopKept(old(t), t)
      ensures saveorig == old(saveorig) && soclauses == old(soclauses)
      ensures (old(Tracked()) ==> Tracked()) && Recorded() == old(Recorded())
    {
      hide Valid, TopKept, Autarky.SavedOk, Autarky.SavedPart, Autarky.AllMarked, Autarky.Greedy;
      EnterReady();
      ImportLit(lit);
      Autarky.SavedMore(saveorig, soclauses, added, old(maxVar), maxVar);
      PushAssumption(lit);
    }

    method PushAssumption(lit: Lit)
      requires Valid() && state.READY? && 1 <= Var(lit) <= maxVar
      modifies `als
      ensures Valid() && als == old(als) + [lit]
    {
      hide HeapOk, Invariant, Synced, FixedCount;
      ghost var s := St();
      AssumeKept(s, lit);
      als := als + [lit];
      SyncedSame(s, St());
    }

    /** Solves the formula under the assumptions made since the last search. */
    method Solve(l: int) returns (r: Verdict)
      requires Valid() && added == []
      modifies this, heap
      ensures Valid() && state == StateOf(r) && added == []
      ensures F == old(F) && maxVar == old(maxVar) && Unlimited() == old(Unlimited())
      ensures lpropagations == old(lpropagations) && interruptible == old(interruptible)
      ensures als == if old(state).READY? then old(als) else []
      ensures Meaning(r)
      ensures r.Unknown? ==> (l >= 0 || !Unlimited()) && AtLimit(l, decisions - old(decisions), interruptible)
      ensures decisions >= old(decisions) && (l >= 0 ==> decisions <= old(decisions) + l)
      ensures old(mtcls).Some? ==> mtcls.Some?
      ensures TopKept(old(t), t) && Heap.Later(old(heap.past), heap.past)
      ensures saveorig == old(saveorig) && soclauses == old(soclauses)
      ensures (old(Tracked()) ==> Tracked()) && Recorded() == old(Recorded())
    {
      hide Valid, Meaning, TopKept, Autarky.SavedOk, Autarky.SavedPart, Autarky.AllMarked, Autarky.Greedy;
      EnterReady();
      ghost var T1 := t;
      r := Search(l);
      TopKeptOn(old(t), T1, t);
    }

    /** Runs the search. */
    method Search(l: int) returns (r: Verdict)
      requires Valid() && state.READY? && added == []
      modifies `t, `d, `locked, `counts, `wdone, `bdone, `ttail, `ttail2, `conflict, `adecidelevel, `alstail
      modifies `oclauses, `lclauses, `nextCid, `mtcls, `failedAssumption, `decisions, `propagations, `conflicts
      modifies `lsimplify, `fsimplify, `isimplify, `lubycnt, `lrestart, `lreduce, `state
      modifies `lreduceadjustcnt, `lreduceadjustinc, heap
      ensures Valid() && state == StateOf(r) && Meaning(r)
      ensures r.Unknown? ==> (l >= 0 || !Unlimited()) && AtLimit(l, decisions - old(decisions), interruptible)
      ensures decisions >= old(decisions) && (l >= 0 ==> decisions <= old(decisions) + l)
      ensures old(mtcls).Some? ==> mtcls.Some?
      ensures TopKept(old(t), t) && Heap.Later(old(heap.past), heap.past)
    {
      hide Valid, Ready, Done, Meaning, TopKept;
      MakeReady();
      r := Sat(l, interruptible);
      DoneFacts(r);
      Conclude(r);
    }

    lemma MakeReady()
      requires Valid() && state.READY?
      ensures Ready() && !extracted
    {
      hide Invariant, Synced, FixedCount;
    }

    method Conclude(r: Verdict)
      requires Done(r) && added == [] && !extracted
      modifies `state
      ensures Valid() && state == StateOf(r)
    {
      hide HeapOk, Invariant, Synced, FixedCount, AtRest, Answered;
      state := StateOf(r);
    }

    lemma DoneFacts(r: Verdict)
      requires Done(r)
      ensures Meaning(r)
    {
      hide Invariant, Synced, FixedCount, AtRest, Models, Agrees, Refuted, Assumed, ModelOf, TopOrAssumed;
      VerdictSound(St(), r);
      AnsweredFacts(St(), r);
    }

    /** The value the last search found for a literal: 1, -1, or 0 for a variable the solver does not know. */
    method Deref(l: Lit) returns (v: int)
      requires Valid() && state.SAT? && l != 0
      ensures mtcls.None?
      ensures v == if Var(l) > maxVar then 0 else if Holds(Assignment(), l) then 1 else -1
    {
      hide Invariant, Synced, FixedCount, AtRest;
      DerefFacts(St(), l);
      if Var(l) > maxVar {
        return 0;
      }
      v := if l in t.lev then 1 else if -l in t.lev then -1 else 0;
    }

    /** Makes the solver save the literals of the clauses that are added from now on. A clause of which some literals
        were added before is not recorded completely. */
    method SaveOriginalClauses()
      requires Valid() && (saveorig || F == {})
      modifies `saveorig
      ensures Valid() && saveorig
      ensures old(Tracked()) ==> Tracked()
      ensures old(Recorded()) ==> (Recorded() <==> old(saveorig) || added == [])
    {
      hide Invariant, Synced, FixedCount, AtRest, Answered, Refuted, Core, Reached;
      if saveorig {
        return;
      }
      saveorig := true;
      Autarky.SavedStart(added, maxVar);
    }

    lemma ModelFacts()
      requires Valid() && state.SAT?
      ensures mtcls.None? && Autarky.TotalValues(maxVar, t.lev) && Models(Assignment(), F) && added == []
      ensures forall l :: 1 <= Var(l) <= maxVar ==> (Holds(Assignment(), l) <==> l in t.lev)
      ensures forall C, l :: C in F && l in C ==> 1 <= Var(l) <= maxVar && (Holds(Assignment(), l) <==> l in t.lev)
    {
      hide Invariant, Synced, FixedCount, AtRest, Answered, Refuted, Core, Models, Holds;
      TotalFacts(St());
    }

    lemma SavedLiterals()
      requires Valid() && Tracked() && state.SAT?
      ensures Autarky.TotalValues(maxVar, t.lev) && Autarky.Open(soclauses) == [] && Autarky.AllKnown(maxVar, soclauses)
    {
      hide Valid, Holds, Autarky.SavedPart;
      ModelFacts();
      Autarky.SavedDone(saveorig, soclauses, maxVar);
    }

    /** The saved clauses are true if they are the original ones. */
    lemma SavedTrue()
      requires Valid() && Recorded() && state.SAT? && saveorig
      ensures Autarky.AllTrue(t.lev, Autarky.Ended(soclauses))
    {
      hide Valid, Holds;
      ModelFacts();
      forall C | C in Autarky.Ended(soclauses)
        ensures Autarky.SomeTrue(t.lev, C)
      {
        assert Satisfies(Assignment(), C);
        var l :| l in C && Holds(Assignment(), l);
      }
    }

    /** Computes a partial assignment. */
    method Minautarky()
      requires Valid() && Tracked() && state.SAT? && saveorig && !partial
      modifies `partial, `partials
      ensures Valid() && Tracked() && partial
      ensures Autarky.Greedy(t.lev, Autarky.Ended(soclauses), partials) && |partials| <= |Autarky.Ended(soclauses)|
    {
      hide Invariant, Synced, FixedCount, AtRest, Answered, Refuted, Core, Reached;
      SavedLiterals();
      partials := Autarky.Minautarky(maxVar, soclauses, t.lev);
      partial := true;
    }

    /** The value of a literal in a part of the assignment. This part satisfies all saved clauses on its own exactly if
        they are true, and then the formula if it was recorded completely. */
    method DerefPartial(l: Lit) returns (v: int)
      requires Valid() && Tracked() && state.SAT? && saveorig && 1 <= Var(l) <= maxVar
      modifies `partial, `partials
      ensures Valid() && Tracked() && partial && (old(partial) ==> partials == old(partials))
      ensures Autarky.Greedy(t.lev, Autarky.Ended(soclauses), partials) && |partials| <= |Autarky.Ended(soclauses)|
      ensures v == if Var(l) !in partials then 0 else if Holds(Assignment(), l) then 1 else -1
      ensures SavedSatisfied() <==> Autarky.AllTrue(t.lev, Autarky.Ended(soclauses))
      ensures Recorded() ==> forall m: Model :: AgreesOn(m, Assignment(), partials) ==> Models(m, F)
    {
      hide Valid, AgreesOn, Tracked, Recorded, SavedSatisfied, Models;
      if !partial {
        Minautarky();
      }
      PartialChosen();
      PartialModels();
      v := Autarky.Pderef(t.lev, partials, l);
    }

    lemma PartialChosen()
      requires Tracked() && partial
      ensures Autarky.Greedy(t.lev, Autarky.Ended(soclauses), partials) && |partials| <= |Autarky.Ended(soclauses)|
    {
      hide Autarky.SavedPart, Autarky.AllMarked, Autarky.Greedy;
    }

    /** Every assignment that agrees on the partial one satisfies all saved clauses. */
    ghost predicate SavedSatisfied()
      reads `t, `partials, `soclauses
    {
      forall m: Model, C :: AgreesOn(m, Assignment(), partials) && C in Autarky.Ended(soclauses) ==> Satisfies(m, C)
    }

    lemma PartialModels()
      requires Valid() && Tracked() && state.SAT? && partial
      ensures SavedSatisfied() <==> Autarky.AllTrue(t.lev, Autarky.Ended(soclauses))
      ensures Recorded() ==> forall m: Model :: AgreesOn(m, Assignment(), partials) ==> Models(m, F)
      ensures forall l :: 1 <= Var(l) <= maxVar ==>
        (Holds(Assignment(), l) <==> l in t.lev) && (l in t.lev <==> -l !in t.lev)
    {
      hide Valid, Autarky.SavedPart;
      ModelFacts();
      SavedLiterals();
      if Autarky.AllTrue(t.lev, Autarky.Ended(soclauses)) {
        forall m: Model | AgreesOn(m, Assignment(), partials)
          ensures forall C :: C in Autarky.Ended(soclauses) ==> Satisfies(m, C)
        {
          SavedAgrees(m);
        }
      }
      if SavedSatisfied() {
        forall C | C in Autarky.Ended(soclauses)
          ensures Autarky.SomeTrue(t.lev, C)
        {
          assert AgreesOn(Assignment(), Assignment(), partials);
          assert Satisfies(Assignment(), C);
          SavedHolds(C);
        }
      }
      if Recorded() {
        SavedTrue();
      }
    }

    lemma SavedAgrees(m: Model)
      requires Valid() && Tracked() && state.SAT? && partial && AgreesOn(m, Assignment(), partials)
      requires Autarky.AllTrue(t.lev, Autarky.Ended(soclauses))
      ensures forall C :: C in Autarky.Ended(soclauses) ==> Satisfies(m, C)
    {
      hide Valid, Autarky.SavedPart, Satisfies, Models;
      ModelFacts();
      SavedLiterals();
      var cs := Autarky.Ended(soclauses);
      forall C, l | C in cs && l in C && l in t.lev && Var(l) in partials
        ensures Holds(m, l)
      {
        Autarky.EndedKnown(soclauses, C, l);
      }
      Autarky.MarkedImplies(t.lev, partials, cs, m);
    }

    lemma SavedHolds(C: Clause)
      requires Valid() && Tracked() && state.SAT? && C in Autarky.Ended(soclauses) && Satisfies(Assignment(), C)
      ensures Autarky.SomeTrue(t.lev, C)
    {
      hide Valid, Autarky.SavedPart, Holds;
      ModelFacts();
      SavedLiterals();
      var l :| l in C && Holds(Assignment(), l);
      Autarky.EndedKnown(soclauses, C, l);
    }

    /** The value of a literal at top level, which is its value in every model; 0 if there is none. */
    method DerefToplevel(l: Lit) returns (v: int)
      requires Valid() && l != 0
      ensures v == 1 ==> forall m: Model :: Models(m, F) ==> Holds(m, l)
      ensures v == -1 ==> forall m: Model :: Models(m, F) ==> !Holds(m, l)
      ensures v == if TopTrue(t.lev, l) then 1 else if TopTrue(t.lev, -l) then -1 else 0
    {
      hide Invariant, Synced, FixedCount, AtRest, Answered, Models;
      TopFacts(St(), l);
      if Var(l) > maxVar {
        return 0;
      }
      if l in t.lev && t.lev[l] == 0 {
        return 1;
      }
      if -l in t.lev && t.lev[-l] == 0 {
        return -1;
      }
      return 0;
    }

    /** Whether the empty clause was derived: then there is no model under any assumptions. */
    method Inconsistent() returns (r: bool)
      requires Valid()
      ensures r == mtcls.Some? && (r ==> Refuted(F, {}))
    {
      hide Invariant, Synced, FixedCount, AtRest, Answered, Refuted;
      r := mtcls.Some?;
      if r {
        EmptyRefutes(St());
      }
    }

    lemma EmptyMeans()
      requires Valid() && mtcls.Some?
      ensures Refuted(F, {})
    {
      hide Invariant, Synced, FixedCount, AtRest, Answered, Refuted;
      EmptyRefutes(St());
    }

    /** After a search that did not derive the empty clause, no original clause is false. */
    lemma NoneFalsified(C: Clause)
      requires Valid() && !state.READY? && mtcls.None? && C in F
      ensures exists l :: l in C && -l !in t.lev
    {
      hide Invariant, Synced, FixedCount, AtRest, Settled;
      AnsweredSettled(St(), if state.SAT? then Satisfiable else if state.UNSAT? then Unsatisfiable else Unknown);
      SettledClause(St(), C);
    }

    lemma FormulaRange()
      requires Valid()
      ensures forall C :: C in F ==> 0 !in C
    {
      hide Synced, FixedCount, AtRest, Answered, TrailInv, StoreInv;
      hide WatchInv, QueueOk, ConflictOk, EmptyOk, AssumptionsOk, TallyOk;
      assert Var(0) == 0;
    }

    lemma AlsRange()
      requires Valid()
      ensures forall l :: l in als ==> 1 <= Var(l) <= maxVar
    {
      hide Synced, FixedCount, AtRest, Answered, TrailInv, StoreInv;
      hide WatchInv, QueueOk, ConflictOk, EmptyOk, FormulaOk, TallyOk;
    }

    method ExtractAllFailedAssumptions()
      requires Valid() && state.UNSAT? && mtcls.None? && !extracted
      modifies `extracted, `failedVars
      ensures Valid() && extracted && failedAssumption.Some?
      ensures forall a :: a in als ==> (Var(a) in failedVars <==> Reached(a))
    {
      hide Invariant, Synced, FixedCount, AtRest, Refuted, Core, Sound, Settled, Lost, DependsOn;
      InvariantSound(St(), NOTHING);
      failedVars := MarkFailed(t.lev, t.rsn, d.cls, als, failedAssumption.value, St());
      extracted := true;
    }

    /** Whether the variable of a literal takes part in the failure of the last search. */
    method FailedAssumption(l: Lit) returns (failed: bool)
      requires Valid() && state.UNSAT? && l != 0
      modifies `extracted, `failedVars
      ensures Valid() && (old(extracted) ==> failedVars == old(failedVars))
      ensures mtcls.Some? ==> !failed && Refuted(F, {})
      ensures mtcls.None? ==> (failed <==> exists a :: a in als && Var(a) == Var(l) && Reached(a))
      ensures mtcls.None? ==> (failed <==> Var(l) <= maxVar && Var(l) in failedVars)
      ensures mtcls.None? && failed ==> extracted
      ensures mtcls.None? && Var(l) <= maxVar ==> extracted && Refuted(F, Core(als, failedVars))
      ensures mtcls.None? && failed ==> exists a :: a in als && Var(a) == Var(l)
    {
      hide Valid, Refuted, Core, Reached;
      AlsRange();
      if mtcls.Some? {
        var r := Inconsistent();
        return false;
      }
      if Var(l) > maxVar {
        return false;
      }
      if !extracted {
        ExtractAllFailedAssumptions();
      }
      CoreFailed();
      failed := Var(l) in failedVars;
    }

    lemma CoreFailed()
      requires Valid() && extracted
      ensures Refuted(F, Core(als, failedVars)) && forall v :: v in failedVars ==> exists a :: a in als && Var(a) == v
      ensures forall a :: a in als ==> (Var(a) in failedVars <==> Reached(a))
    {
      hide Invariant, Synced, FixedCount, AtRest, Refuted, Core, Answered, Reached;
    }

    /** The assumptions that do not take part in the failure of the last search. */
    ghost function Unfailed(): set<Lit>
      reads `als, `t, `d, `failedAssumption
    {
      set a | a in als && !Reached(a)
    }

    /** The assumptions that take part in the failure of the last search, in the order they were made. */
    method FailedAssumptions() returns (fals: seq<Lit>)
      requires Valid() && state.UNSAT?
      modifies `extracted, `failedVars
      ensures Valid() && (forall a :: a in fals ==> a in als) && (NoDup(als) ==> NoDup(fals))
      ensures Refuted(F, Assumed(fals))
      ensures fals == if mtcls.Some? then [] else Without(als, Unfailed())
    {
      hide Valid, Refuted, Core, Assumed, Without, Reached;
      fals := [];
      if mtcls.Some? {
        var r := Inconsistent();
        NothingAssumed();
        return;
      }
      if !extracted {
        ExtractAllFailedAssumptions();
      }
      CoreFailed();
      ghost var unfailed := Unfailed();
      WithoutNone(unfailed);
      assert als[..0] == [];
      for p := 0 to |als|
        invariant fals == Without(als[..p], unfailed)
        modifies {}
      {
        assert als[..p + 1] == als[..p] + [als[p]];
        WithoutStep(als[..p], als[p], unfailed);
        assert als[p] in als;
        if Var(als[p]) in failedVars {
          fals := fals + [als[p]];
        }
      }
      assert als[..|als|] == als;
      WithoutElems(als, unfailed);
      CoreIs(als, failedVars, fals);
    }
  }

  function StateOf(r: Verdict): ApiState {
    match r
    case Satisfiable => SAT
    case Unsatisfiable => UNSAT
    case Unknown => UNKNOWN
  }
}
