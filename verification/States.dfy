/** The state of the solver as a value, and the invariant every step keeps. */
module States {
  import opened Cnf
  import opened Trails
  import opened Inference
  import opened Watches
  import opened Counting

  datatype Option<T> = None | Some(value: T)

  /** A stored clause; binary clauses exist only as a pair of implications. */
  datatype ClauseRef = NoClause | Binary(a: Lit, b: Lit) | Large(c: Cid)

  datatype State = State(
    n: nat,                     // number of variables
    F: set<Clause>,             // the original clauses, as they were added
    T: Trail,
    D: Store,
    locked: set<Cid>,           // clauses that are the reason of a true literal
    ocls: seq<Cid>,             // stack of original clauses
    lcls: seq<Cid>,             // stack of learned clauses
    next: Cid,                  // the index the next clause gets
    wdone: nat,                 // trail literals whose watch lists were propagated completely
    bdone: nat,                 // trail literals whose binary clauses were propagated completely
    ttail: nat,                 // next trail literal to propagate over watch lists
    ttail2: nat,                // next trail literal to propagate over binary clauses
    conflict: ClauseRef,
    mtcls: Option<Cid>,         // the empty clause, once derived
    als: seq<Lit>,              // assumptions
    alstail: nat,               // next assumption to decide
    adl: nat,                   // highest level on which an assumption is true
    failed: Option<Lit>,        // the assumption found false
    k: Counters)                // the counters of large clauses

  /** What a state between two steps may still violate: clauses, binary clauses and original clauses to be put right. */
  datatype Exempt = Exempt(hole: set<Cid>, holeB: set<(Lit, Lit)>, uncovered: set<Clause>)

  const NOTHING := Exempt({}, {}, {})

  ghost function LockedBy(rsn: map<Lit, Reason>): set<Cid> {
    set l | l in rsn && rsn[l].Antecedent? :: rsn[l].c
  }

  ghost predicate StacksOk(cls: map<Cid, Clause>, learned: set<Cid>, ocls: seq<Cid>, lcls: seq<Cid>, next: Cid) {
    && (forall c :: c in cls ==> c < next)
    && (forall c :: c in learned <==> c in lcls)
    && (forall c :: c in cls <==> c in ocls || c in lcls)
    && NoDup(ocls) && NoDup(lcls)
    && (forall c :: c in ocls ==> c !in lcls)
  }

  /** A literal true at top level has a unit clause as its reason. */
  ghost predicate TopUnits(T: Trail, cls: map<Cid, Clause>) {
    forall l :: l in T.lev && T.lev[l] == 0 ==>
      l in T.rsn && T.rsn[l].Antecedent? && T.rsn[l].c in cls && cls[T.rsn[l].c] == [l]
  }

  /** Only literals of the current level can still wait for propagation. */
  ghost predicate QueueOk(s: State) {
    && s.wdone <= s.ttail <= |s.T.lits|
    && s.bdone <= s.ttail2 <= |s.T.lits|
    && forall l :: l in s.T.pos && l in s.T.lev && (s.T.pos[l] >= s.wdone || s.T.pos[l] >= s.bdone) ==>
      s.T.lev[l] == s.T.dl
  }

  /** Processed assumptions are true, and as long as others wait (or one has failed) every decision is an assumption. */
  ghost predicate AssumptionsOk(s: State) {
    && s.alstail <= |s.als|
    && s.adl <= s.T.dl
    && (s.failed.None? ==> forall i :: 0 <= i < s.alstail ==> s.als[i] in s.T.lev && s.T.lev[s.als[i]] <= s.adl)
    && (forall l ::
          IsDecision(s.T, l) && l in s.T.lev && (s.failed.Some? || s.alstail < |s.als| || s.T.lev[l] <= s.adl) ==>
          l in s.als)
    && (forall l :: l in s.als ==> 1 <= Var(l) <= s.n)
  }

  ghost predicate Falsified(T: Trail, c: Clause) {
    && (forall l :: l in c ==> -l in T.pos)
    && (T.dl > 0 ==> exists l :: l in c && -l in T.lev && T.lev[-l] == T.dl)
  }

  function ConflictLits(conflict: ClauseRef, cls: map<Cid, Clause>): Clause
    requires !conflict.NoClause?
    requires conflict.Large? ==> conflict.c in cls
  {
    match conflict
    case Binary(a, b) => [a, b]
    case Large(c) => cls[c]
  }

  ghost predicate ConflictOk(s: State) {
    !s.conflict.NoClause? ==>
      && (s.conflict.Large? ==> s.conflict.c in s.D.cls)
      && Falsified(s.T, ConflictLits(s.conflict, s.D.cls))
      && Entails(s.F, ConflictLits(s.conflict, s.D.cls))
  }

  ghost predicate EmptyOk(s: State) {
    s.mtcls.Some? ==> s.mtcls.value in s.D.cls && s.D.cls[s.mtcls.value] == [] && s.T.dl == 0
  }

  /** The literals of the original clauses belong to the variables of the solver. */
  ghost predicate FormulaOk(n: nat, F: set<Clause>) {
    forall C, l :: C in F && l in C ==> 1 <= Var(l) <= n
  }

  /** The counters are right. */
  ghost predicate TallyOk(s: State) {
    s.k == CountersOf(s.D.cls, s.locked, s.ocls, s.lcls)
  }

  ghost predicate TrailInv(s: State) {
    && TrailOk(s.n, s.T)
    && ReasonsOk(s.T, s.D.cls)
    && TrailSound(s.F, s.T)
    && TopUnits(s.T, s.D.cls)
    && s.locked == LockedBy(s.T.rsn)
  }

  ghost predicate StoreInv(s: State) {
    && ClausesOk(s.n, s.D.cls)
    && ImplsOk(s.n, s.D.impls)
    && ListsOk(s.D)
    && ParkedTrue(s.T, s.D.dhtps)
    && ClausesEntailed(s.F, s.D.cls)
    && ImplsEntailed(s.F, s.D.impls)
    && StacksOk(s.D.cls, s.D.learned, s.ocls, s.lcls, s.next)
  }

  ghost predicate WatchInv(s: State, x: Exempt) {
    s.mtcls.None? ==>
      && WatchesOk(s.T, s.wdone, s.D.cls, s.D.watched - x.hole)
      && BinsOk(s.T, s.bdone, s.D.impls, x.holeB)
      && Covers(s.F - x.uncovered, s.T, s.D)
      && CopiesOk(s.F, s.T, s.D)
  }

  ghost predicate Invariant(s: State, x: Exempt) {
    && TrailInv(s)
    && StoreInv(s)
    && WatchInv(s, x)
    && QueueOk(s)
    && AssumptionsOk(s)
    && ConflictOk(s)
    && EmptyOk(s)
    && FormulaOk(s.n, s.F)
    && TallyOk(s)
  }

  /** Without a conflict, propagation stopped nowhere half-way. */
  ghost predicate Synced(s: State) {
    s.conflict.NoClause? ==> s.wdone == s.ttail && s.bdone == s.ttail2
  }
}
