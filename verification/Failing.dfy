/** A failed assumption: the decisions that make it false, and the clause that says so. */
module Failing {
  import opened Cnf
  import opened Trails
  import opened Inference
  import opened Watches
  import opened Sorting
  import opened States
  import opened Counting
  import opened Steps
  import opened Storing
  import opened Adding
  import opened Originals
  import opened Analysis
  import opened Minimizing
  import opened Backtracking
  import opened Undoing

  ghost predicate ReasonClosed(T: Trail, cls: map<Cid, Clause>, M: set<Lit>) {
    forall l, k :: l in M && HasReason(T.rsn, cls, l) && k in ReasonLits(T.rsn, cls, l) && k != l ==> -k in M
  }

  /** Going from true literals to the literals of their reasons, one gets from top to l. */
  ghost predicate DependsOn(T: Trail, cls: map<Cid, Clause>, top: Lit, l: Lit) {
    forall M: set<Lit> :: top in M && ReasonClosed(T, cls, M) ==> l in M
  }

  lemma DependsNext(T: Trail, cls: map<Cid, Clause>, top: Lit, v: Lit, k: Lit)
    requires DependsOn(T, cls, top, v) && HasReason(T.rsn, cls, v) && k in ReasonLits(T.rsn, cls, v) && k != v
    ensures DependsOn(T, cls, top, -k)
  {
    forall M: set<Lit> | top in M && ReasonClosed(T, cls, M)
      ensures -k in M
    {
      assert v in M;
    }
  }

  /** marked lists true literals that top depends on; those before next are decisions or have all of their reason
      marked. */
  ghost predicate Tracing(T: Trail, cls: map<Cid, Clause>, top: Lit, marks: set<Lit>, marked: seq<Lit>, next: nat) {
    && next <= |marked|
    && NoDup(marked) && (forall l :: l in marks <==> l in marked)
    && top in marks && top in T.pos
    && (forall l :: l in marks ==> l in T.pos && l in T.rsn && T.pos[l] <= T.pos[top])
    && (forall j :: 0 <= j < next ==> IsDecision(T, marked[j]) || Resolvable(T, cls, marks, marked[j]))
    && (forall l :: l in marks ==> DependsOn(T, cls, top, l))
  }

  /** At the end, everything top depends on is marked. */
  lemma TracedAll(T: Trail, cls: map<Cid, Clause>, top: Lit, marks: set<Lit>, marked: seq<Lit>, l: Lit)
    requires Tracing(T, cls, top, marks, marked, |marked|)
    ensures l in marks <==> DependsOn(T, cls, top, l)
  {
    hide ReasonLits;
    forall l, k | l in marks && HasReason(T.rsn, cls, l) && k in ReasonLits(T.rsn, cls, l) && k != l
      ensures -k in marks
    {
      var j :| 0 <= j < |marked| && marked[j] == l;
      assert IsDecision(T, marked[j]) || Resolvable(T, cls, marks, marked[j]);
    }
    assert top in marks && ReasonClosed(T, cls, marks);
  }

  /** Every other literal of the reason R of v is false since before v became true. */
  ghost predicate Caused(T: Trail, v: Lit, R: Clause) {
    && v in T.pos
    && forall k :: k in R ==> k == v || (k !in T.lev && -k in T.pos && -k in T.rsn && T.pos[-k] < T.pos[v])
  }

  lemma ReasonCaused(s: State, v: Lit)
    requires Sound(s) && v in s.T.rsn && !s.T.rsn[v].Decision?
    ensures s.T.rsn[v].Antecedent? ==> s.T.rsn[v].c in s.D.cls
    ensures Caused(s.T, v, ReasonLits(s.T.rsn, s.D.cls, v))
  {
    hide ClausesEntailed, TrailSound, ReasonsOk, LockedBy, TopUnits, Decided, Layered;
    ReasonEntailed(s.F, s.T, s.D.cls, v);
    var R := ReasonLits(s.T.rsn, s.D.cls, v);
    forall k | k in R && k != v
      ensures k !in s.T.lev && -k in s.T.pos && -k in s.T.rsn && s.T.pos[-k] < s.T.pos[v]
    {
      assert -k in s.T.pos && -(-k) !in s.T.pos;
    }
  }

  lemma TraceOne(T: Trail, cls: map<Cid, Clause>, top: Lit, marks: set<Lit>, marked: seq<Lit>, next: nat, l: Lit)
    requires Tracing(T, cls, top, marks, marked, next)
    requires l !in marks && l in T.pos && l in T.rsn && T.pos[l] <= T.pos[top] && DependsOn(T, cls, top, l)
    ensures Tracing(T, cls, top, marks + {l}, marked + [l], next)
    ensures Unmarked(T, marks + {l}) < Unmarked(T, marks)
  {
    hide Resolvable, DependsOn;
    forall j | 0 <= j < next && !IsDecision(T, marked[j])
      ensures Resolvable(T, cls, marks + {l}, marked[j])
    {
      ResolvableMono(T, cls, marks, marks + {l}, marked[j]);
    }
    assert T.pos.Keys - (marks + {l}) == (T.pos.Keys - marks) - {l};
    assert l in T.pos.Keys - marks;
  }

  /** Marks the variables of a reason that are not marked yet. */
  method MarkCauses(level: map<Lit, nat>, R: Clause, v: Lit, marks: set<Lit>, marked: seq<Lit>,
                    ghost T: Trail, ghost cls: map<Cid, Clause>, ghost top: Lit, ghost next: nat)
    returns (marks': set<Lit>, marked': seq<Lit>)
    requires level == T.lev && v in level && v in marks && Caused(T, v, R)
    requires HasReason(T.rsn, cls, v) && R == ReasonLits(T.rsn, cls, v)
    requires Tracing(T, cls, top, marks, marked, next)
    ensures Tracing(T, cls, top, marks', marked', next)
    ensures marks <= marks' && marked <= marked'
    ensures forall k :: k in R && k != v ==> -k in marks'
    ensures Unmarked(T, marks') < Unmarked(T, marks) || (marks' == marks && marked' == marked)
  {
    hide Resolvable, Tracing, Unmarked, DependsOn, HasReason, ReasonLits;
    marks', marked' := marks, marked;
    var p := 0;
    while p < |R|
      invariant 0 <= p <= |R|
      invariant Tracing(T, cls, top, marks', marked', next)
      invariant marks <= marks' && marked <= marked'
      invariant forall i :: 0 <= i < p && R[i] != v ==> -R[i] in marks'
      invariant Unmarked(T, marks') < Unmarked(T, marks) || (marks' == marks && marked' == marked)
    {
      var k := R[p];
      assert k in R;
      var u := if k in level then k else -k;
      if u !in marks' {
        TraceBound(T, cls, top, marks', marked', next, v);
        DependsNext(T, cls, top, v, k);
        TraceOne(T, cls, top, marks', marked', next, u);
        marks', marked' := marks' + {u}, marked' + [u];
      }
      p := p + 1;
    }
  }

  lemma TraceBound(T: Trail, cls: map<Cid, Clause>, top: Lit, marks: set<Lit>, marked: seq<Lit>, next: nat, v: Lit)
    requires Tracing(T, cls, top, marks, marked, next)
    ensures top in T.pos && (v in marks ==> v in T.pos && v in T.rsn && T.pos[v] <= T.pos[top])
    ensures forall j :: 0 <= j < |marked| ==> marked[j] in marks
    ensures v in marks ==> DependsOn(T, cls, top, v)
  {
    hide DependsOn;
    forall j | 0 <= j < |marked|
      ensures marked[j] in marks
    {
      var l := marked[j];
      assert l in marked;
    }
  }

  lemma TraceStart(s: State, top: Lit)
    requires Sound(s) && top in s.T.lev
    ensures Tracing(s.T, s.D.cls, top, {top}, [top], 0)
  {
    hide ClausesEntailed, TrailSound, ReasonsOk, LockedBy, TopUnits, Decided, Layered, Consistent, Resolvable;
  }

  lemma TraceOn(T: Trail, cls: map<Cid, Clause>, top: Lit, marks: set<Lit>, marked: seq<Lit>, next: nat)
    requires Tracing(T, cls, top, marks, marked, next) && next < |marked|
    requires IsDecision(T, marked[next]) || Resolvable(T, cls, marks, marked[next])
    ensures Tracing(T, cls, top, marks, marked, next + 1)
  {
    hide Resolvable, DependsOn;
  }

  /** One round of the search: the literal at next is a decision, or its reason is marked. */
  method TraceNext(level: map<Lit, nat>, reason: map<Lit, Reason>, cls: map<Cid, Clause>,
                   marks: set<Lit>, marked: seq<Lit>, next: nat, ghost s: State, ghost top: Lit)
    returns (marks': set<Lit>, marked': seq<Lit>)
    requires Sound(s) && level == s.T.lev && reason == s.T.rsn && cls == s.D.cls
    requires Tracing(s.T, cls, top, marks, marked, next) && next < |marked|
    ensures Tracing(s.T, cls, top, marks', marked', next + 1)
    ensures marked <= marked' && marked[next] in reason
    ensures Unmarked(s.T, marks') < Unmarked(s.T, marks) || (marks' == marks && marked' == marked)
  {
    hide Sound, Tracing, Resolvable, Caused, Unmarked;
    var v := marked[next];
    TraceBound(s.T, cls, top, marks, marked, next, v);
    SoundFacts(s);
    marks', marked' := marks, marked;
    if !reason[v].Decision? {
      ReasonCaused(s, v);
      ReasonKnown(reason, cls, v);
      marks', marked' := MarkCauses(level, ReasonLits(reason, cls, v), v, marks, marked, s.T, cls, top, next);
      NowResolvable(s, marks', v);
    }
    TraceOn(s.T, cls, top, marks', marked', next);
  }

  ghost function Decisions(T: Trail, M: set<Lit>): set<Lit> {
    set l | l in M && IsDecision(T, l)
  }

  /** Whatever the search has marked follows from the decisions it has marked. */
  lemma TraceClosed(s: State, top: Lit, marks: set<Lit>, marked: seq<Lit>)
    requires Sound(s) && Tracing(s.T, s.D.cls, top, marks, marked, |marked|)
    ensures Closed(s.T, s.D.cls, marks, Decisions(s.T, marks))
  {
    hide ClausesEntailed, TrailSound, ReasonsOk, LockedBy, TopUnits, Decided, Layered, Consistent, ReasonLits;
    forall l | l in marks && !IsDecision(s.T, l)
      ensures Supported(s.T, s.D.cls, marks, l)
    {
      var j :| 0 <= j < |marked| && marked[j] == l;
      assert Resolvable(s.T, s.D.cls, marks, marked[j]);
    }
  }

  lemma TraceHolds(s: State, top: Lit, marks: set<Lit>, marked: seq<Lit>, m: Model)
    requires Sound(s) && Tracing(s.T, s.D.cls, top, marks, marked, |marked|)
    requires Models(m, s.F) && Agrees(m, Decisions(s.T, marks))
    ensures Holds(m, top)
  {
    hide Sound, Tracing, Decisions, Models;
    TraceClosed(s, top, marks, marked);
    SoundBase(s);
    TraceBound(s.T, s.D.cls, top, marks, marked, |marked|, top);
    TopMarked(s.T, s.D.cls, top, marks, marked);
    ClosedHolds(s.F, s.T, s.D.cls, marks, Decisions(s.T, marks), m, top);
  }

  lemma TopMarked(T: Trail, cls: map<Cid, Clause>, top: Lit, marks: set<Lit>, marked: seq<Lit>)
    requires Tracing(T, cls, top, marks, marked, |marked|)
    ensures top in marks
  {
  }

  /** The search reaches the decision of every level it meets. */
  lemma {:induction false} ReachDecision(s: State, top: Lit, marks: set<Lit>, marked: seq<Lit>, l: Lit)
    requires Sound(s) && Tracing(s.T, s.D.cls, top, marks, marked, |marked|)
    requires l in marks && l in s.T.pos && l in s.T.lev && s.T.lev[l] > 0
    ensures exists d :: d in marks && IsDecision(s.T, d) && d in s.T.lev && s.T.lev[d] == s.T.lev[l]
    decreases s.T.pos[l]
  {
    hide ClausesEntailed, TrailSound, ReasonsOk, LockedBy, TopUnits, Decided, Layered, Consistent, ReasonLits;
    if !IsDecision(s.T, l) {
      var j :| 0 <= j < |marked| && marked[j] == l;
      assert Resolvable(s.T, s.D.cls, marks, marked[j]);
      ReasonEntailed(s.F, s.T, s.D.cls, l);
      var R := ReasonLits(s.T.rsn, s.D.cls, l);
      var k :| k in R && k != l && -k in s.T.lev && s.T.lev[-k] == s.T.lev[l];
      ReachDecision(s, top, marks, marked, -k);
    }
  }

  // ---------- the clause of a failed assumption ----------

  /** added says that the true literal top follows from decisions; one of them opened the level of top. */
  ghost predicate Explains(s: State, top: Lit, added: Clause) {
    && Entails(s.F, added) && ClauseOk(s.n, added)
    && |added| >= 2 && added[0] == top && top in s.T.pos && top in s.T.lev
    && (forall i :: 1 <= i < |added| ==> IsDecision(s.T, -added[i]) && -added[i] in s.T.pos && -added[i] in s.T.lev
                                         && s.T.pos[-added[i]] < s.T.pos[top])
    && (exists i :: 1 <= i < |added| && -added[i] in s.T.lev && s.T.lev[-added[i]] == s.T.lev[top])
  }

  /** The clause collected so far: top and the negations of the decisions among the literals before next. */
  ghost predicate Gathering(T: Trail, top: Lit, marked: seq<Lit>, next: nat, added: Clause) {
    && next <= |marked|
    && |added| >= 1 && added[0] == top && NoDup(added)
    && (forall l :: l in added && l != top ==> -l in marked[..next] && IsDecision(T, -l))
    && (forall d :: d in marked[..next] && IsDecision(T, d) ==> -d in added)
  }

  lemma AppendNew<E>(c: seq<E>, l: E)
    ensures NoDup(c) && l !in c ==> NoDup(c + [l])
    ensures forall k :: k in c + [l] <==> k in c || k == l
  {
    var d := c + [l];
    forall k
      ensures k in d <==> k in c || k == l
    {
      assert d[|c|] == l;
    }
  }

  lemma CollectSkip(T: Trail, top: Lit, marked: seq<Lit>, marked': seq<Lit>, next: nat, added: Clause)
    requires Gathering(T, top, marked, next, added) && next < |marked| && marked <= marked'
    requires !IsDecision(T, marked[next])
    ensures Gathering(T, top, marked', next + 1, added)
  {
    hide IsDecision, NoDup;
    assert marked'[..next + 1] == marked[..next] + [marked[next]];
    AppendNew(marked[..next], marked[next]);
  }

  lemma CollectNew(T: Trail, top: Lit, marked: seq<Lit>, next: nat, added: Clause)
    requires Gathering(T, top, marked, next, added) && next < |marked| && NoDup(marked)
    requires top in T.pos && (forall l :: l in T.pos ==> -l !in T.pos) && marked[next] in T.pos
    ensures -marked[next] !in added
  {
    var v := marked[next];
    assert v !in marked[..next];
    assert -(-v) == v;
    assert -v == top ==> -top in T.pos;
  }

  lemma CollectPush(T: Trail, top: Lit, marked: seq<Lit>, marked': seq<Lit>, next: nat, added: Clause)
    requires Gathering(T, top, marked, next, added) && next < |marked| && marked <= marked'
    requires -marked[next] !in added && IsDecision(T, marked[next])
    ensures Gathering(T, top, marked', next + 1, added + [-marked[next]])
  {
    hide IsDecision, NoDup;
    var v := marked[next];
    AppendNew(added, -v);
    assert marked'[..next + 1] == marked[..next] + [v];
    AppendNew(marked[..next], v);
    assert -(-v) == v;
  }

  lemma TraceFacts(s: State, top: Lit, marks: set<Lit>, marked: seq<Lit>, next: nat)
    requires Sound(s) && Tracing(s.T, s.D.cls, top, marks, marked, next)
    ensures NoDup(marked) && top in s.T.pos && s.T.lev.Keys == s.T.pos.Keys
    ensures forall j :: 0 <= j < |marked| ==>
      marked[j] in s.T.pos && marked[j] in marks && s.T.pos[marked[j]] <= s.T.pos[top]
    ensures forall l :: l in s.T.pos ==> -l !in s.T.pos && 1 <= Var(l) <= s.n
  {
    hide ClausesEntailed, TrailSound, ReasonsOk, LockedBy, TopUnits, Decided, Layered, Resolvable;
    TraceBound(s.T, s.D.cls, top, marks, marked, next, top);
    forall j | 0 <= j < |marked|
      ensures marked[j] in s.T.pos && marked[j] in marks && s.T.pos[marked[j]] <= s.T.pos[top]
    {
      var l := marked[j];
      assert l in marks;
    }
  }

  lemma GatheredHolds(s: State, top: Lit, marks: set<Lit>, marked: seq<Lit>, added: Clause, m: Model)
    requires Sound(s) && Tracing(s.T, s.D.cls, top, marks, marked, |marked|)
    requires Gathering(s.T, top, marked, |marked|, added)
    requires Models(m, s.F)
    ensures Satisfies(m, added)
  {
    hide Sound, Tracing, Models;
    TraceFacts(s, top, marks, marked, |marked|);
    if Agrees(m, Decisions(s.T, marks)) {
      TraceHolds(s, top, marks, marked, m);
      assert added[0] in added;
    } else {
      var d :| d in Decisions(s.T, marks) && !Holds(m, d);
      MarkedHas(s.T, s.D.cls, top, marks, marked, d);
      assert marked[..|marked|] == marked;
      assert -d in added && Holds(m, -d);
    }
  }

  lemma MarkedHas(T: Trail, cls: map<Cid, Clause>, top: Lit, marks: set<Lit>, marked: seq<Lit>, d: Lit)
    requires Tracing(T, cls, top, marks, marked, |marked|)
    ensures d in marks <==> d in marked
  {
  }

  lemma Gathered(s: State, top: Lit, marks: set<Lit>, marked: seq<Lit>, added: Clause)
    requires Sound(s) && Tracing(s.T, s.D.cls, top, marks, marked, |marked|)
    requires Gathering(s.T, top, marked, |marked|, added)
    requires top in s.T.lev && s.T.lev[top] > 0 && !IsDecision(s.T, top)
    ensures Explains(s, top, added)
  {
    hide Sound, Tracing, Models, IsDecision, Gathering;
    TraceFacts(s, top, marks, marked, |marked|);
    forall m: Model | Models(m, s.F)
      ensures Satisfies(m, added)
    {
      GatheredHolds(s, top, marks, marked, added, m);
    }
    GatheredOk(s, top, marks, marked, added);
    var i := GatheredLevel(s, top, marks, marked, added);
  }

  lemma GatheredOk(s: State, top: Lit, marks: set<Lit>, marked: seq<Lit>, added: Clause)
    requires Sound(s) && Tracing(s.T, s.D.cls, top, marks, marked, |marked|)
    requires Gathering(s.T, top, marked, |marked|, added) && !IsDecision(s.T, top)
    ensures ClauseOk(s.n, added) && |added| >= 1 && added[0] == top
    ensures forall i :: 1 <= i < |added| ==> IsDecision(s.T, -added[i]) && -added[i] in s.T.pos && -added[i] in s.T.lev
                                             && s.T.pos[-added[i]] < s.T.pos[top]
  {
    hide Sound, Tracing, IsDecision;
    TraceFacts(s, top, marks, marked, |marked|);
    assert marked[..|marked|] == marked;
    forall l | l in added
      ensures 1 <= Var(l) <= s.n
    {
      assert l != top ==> -l in s.T.pos;
    }
    forall i | 1 <= i < |added|
      ensures IsDecision(s.T, -added[i]) && -added[i] in s.T.pos && s.T.pos[-added[i]] < s.T.pos[top]
    {
      var l := added[i];
      assert l in added && l != added[0];
      SamePlace(s, -l, top);
    }
  }

  lemma GatheredLevel(s: State, top: Lit, marks: set<Lit>, marked: seq<Lit>, added: Clause) returns (i: nat)
    requires Sound(s) && Tracing(s.T, s.D.cls, top, marks, marked, |marked|)
    requires Gathering(s.T, top, marked, |marked|, added)
    requires top in s.T.lev && s.T.lev[top] > 0
    ensures 0 < i < |added| && -added[i] in s.T.lev && s.T.lev[-added[i]] == s.T.lev[top]
  {
    hide Sound, Tracing, IsDecision, Gathering, NoDup;
    TraceFacts(s, top, marks, marked, |marked|);
    TopMarked(s.T, s.D.cls, top, marks, marked);
    ReachDecision(s, top, marks, marked, top);
    var d :| d in marks && IsDecision(s.T, d) && d in s.T.lev && s.T.lev[d] == s.T.lev[top];
    MarkedHas(s.T, s.D.cls, top, marks, marked, d);
    GatheredHas(s.T, top, marked, added, d);
    i :| 0 <= i < |added| && added[i] == -d;
  }

  lemma GatheredHas(T: Trail, top: Lit, marked: seq<Lit>, added: Clause, d: Lit)
    requires Gathering(T, top, marked, |marked|, added) && d in marked && IsDecision(T, d)
    ensures -d in added && |added| > 0 && added[0] == top
  {
    assert marked[..|marked|] == marked;
  }

  lemma SamePlace(s: State, d: Lit, top: Lit)
    requires Sound(s) && d in s.T.pos && top in s.T.pos && s.T.pos[d] <= s.T.pos[top] && d != top
    ensures s.T.pos[d] < s.T.pos[top]
  {
    hide ClausesEntailed, TrailSound, ReasonsOk, LockedBy, TopUnits, Decided, Layered, Consistent;
  }

  /** Collects the decisions that make the failed assumption false. No clause results if nothing would be learned from
      it. */
  method FailClause(level: map<Lit, nat>, reason: map<Lit, Reason>, cls: map<Cid, Clause>, failed: Lit, ghost s: State)
    returns (learn: bool, added: Clause)
    requires Sound(s) && level == s.T.lev && reason == s.T.rsn && cls == s.D.cls
    requires -failed in level
    ensures learn <==> Explainable(reason, cls, -failed)
    ensures learn ==> Explains(s, -failed, added) && !IsDecision(s.T, -failed)
    ensures learn ==> NegatesDecisions(s.T, cls, -failed, added)
  {
    hide *;
    var top := -failed;
    SoundKeys(s, top);
    if reason[top].Decision? {
      DecisionNoReason(reason, cls, top);
      return false, [];
    }
    ReasonCaused(s, top);
    ReasonKnown(reason, cls, top);
    CausedKnown(s.T, top, ReasonLits(reason, cls, top));
    learn := HasDeeper(reason, ReasonLits(reason, cls, top), top);
    ExplainableIf(reason, cls, top);
    if !learn {
      return false, [];
    }
    DeeperOther(reason, ReasonLits(reason, cls, top), top);
    AboveTop(s, top, ReasonLits(reason, cls, top));
    TraceStart(s, top);
    var marks, marked, next := {top}, [top], 0;
    added := [top];
    CollectStart(s.T, top);
    while next < |marked|
      invariant Tracing(s.T, cls, top, marks, marked, next)
      invariant Gathering(s.T, top, marked, next, added)
      decreases Unmarked(s.T, marks), |marked| - next
    {
      TraceFacts(s, top, marks, marked, next);
      var v := marked[next];
      ghost var M, S := marks, marked;
      marks, marked := TraceNext(level, reason, cls, marks, marked, next, s, top);
      DecisionIs(s.T, v);
      if reason[v].Decision? {
        CollectNew(s.T, top, S, next, added);
        CollectPush(s.T, top, S, marked, next, added);
        added := added + [-v];
      } else {
        CollectSkip(s.T, top, S, marked, next, added);
      }
      next := next + 1;
      TraceLength(s.T, cls, top, marks, marked, next);
    }
    DecisionIs(s.T, top);
    TraceLength(s.T, cls, top, marks, marked, next);
    Gathered(s, top, marks, marked, added);
    GatheredAll(s, top, marks, marked, added);
  }

  lemma DecisionNoReason(rsn: map<Lit, Reason>, cls: map<Cid, Clause>, l: Lit)
    requires l in rsn && rsn[l].Decision?
    ensures !Explainable(rsn, cls, l)
  {
  }

  /** top was forced, and not by decisions alone. */
  ghost predicate Explainable(reason: map<Lit, Reason>, cls: map<Cid, Clause>, top: Lit) {
    HasReason(reason, cls, top) && Deeper(reason, ReasonLits(reason, cls, top), top)
  }

  lemma ExplainableIf(reason: map<Lit, Reason>, cls: map<Cid, Clause>, top: Lit)
    requires HasReason(reason, cls, top)
    ensures Explainable(reason, cls, top) <==> Deeper(reason, ReasonLits(reason, cls, top), top)
  {
  }

  /** The clause contains the negations of exactly the decisions that top depends on. */
  ghost predicate NegatesDecisions(T: Trail, cls: map<Cid, Clause>, top: Lit, added: Clause) {
    forall d :: IsDecision(T, d) && d in T.pos ==> (-d in added <==> DependsOn(T, cls, top, d))
  }

  /** Some literal of the reason other than its own has a reason too. */
  ghost predicate Deeper(reason: map<Lit, Reason>, R: Clause, top: Lit) {
    exists k :: k in R && k != top && -k in reason && !reason[-k].Decision?
  }

  lemma DeeperOther(reason: map<Lit, Reason>, R: Clause, top: Lit)
    requires Deeper(reason, R, top)
    ensures exists k :: k in R && k != top
  {
  }

  lemma GatheredAll(s: State, top: Lit, marks: set<Lit>, marked: seq<Lit>, added: Clause)
    requires Sound(s) && Tracing(s.T, s.D.cls, top, marks, marked, |marked|)
    requires Gathering(s.T, top, marked, |marked|, added)
    ensures NegatesDecisions(s.T, s.D.cls, top, added)
  {
    hide Sound, Tracing, IsDecision, DependsOn;
    TraceFacts(s, top, marks, marked, |marked|);
    assert marked[..|marked|] == marked;
    forall d | IsDecision(s.T, d) && d in s.T.pos
      ensures -d in added <==> DependsOn(s.T, s.D.cls, top, d)
    {
      MarkedHas(s.T, s.D.cls, top, marks, marked, d);
      TracedAll(s.T, s.D.cls, top, marks, marked, d);
      assert -(-d) == d;
    }
  }

  lemma TraceLength(T: Trail, cls: map<Cid, Clause>, top: Lit, marks: set<Lit>, marked: seq<Lit>, next: nat)
    requires Tracing(T, cls, top, marks, marked, next)
    ensures next <= |marked|
  {
  }

  lemma CausedKnown(T: Trail, v: Lit, R: Clause)
    requires Caused(T, v, R)
    ensures forall k :: k in R && k != v ==> -k in T.rsn
  {
  }

  lemma DecisionIs(T: Trail, v: Lit)
    requires v in T.rsn
    ensures IsDecision(T, v) <==> T.rsn[v].Decision?
  {
  }

  lemma SoundKeys(s: State, l: Lit)
    requires Sound(s) && l in s.T.lev
    ensures l in s.T.rsn && l in s.T.pos
  {
    hide ClausesEntailed, TrailSound, ReasonsOk, LockedBy, TopUnits, Decided, Layered, Consistent;
  }

  lemma CollectStart(T: Trail, top: Lit)
    ensures Gathering(T, top, [top], 0, [top])
  {
  }

  /** A literal true at top level has a unit clause as its reason. */
  lemma AboveTop(s: State, top: Lit, R: Clause)
    requires Sound(s) && top in s.T.rsn && top in s.T.lev && !s.T.rsn[top].Decision?
    requires s.T.rsn[top].Antecedent? ==> s.T.rsn[top].c in s.D.cls
    requires R == ReasonLits(s.T.rsn, s.D.cls, top) && exists k :: k in R && k != top
    ensures s.T.lev[top] > 0
  {
    hide ClausesEntailed, TrailSound, ReasonsOk, LockedBy, Decided, Layered, Consistent;
    assert s.T.lev[top] == 0 ==> R == [top];
    assert forall k :: k in [top] ==> k == top;
  }

  method HasDeeper(reason: map<Lit, Reason>, R: Clause, top: Lit) returns (r: bool)
    requires forall k :: k in R && k != top ==> -k in reason
    ensures r <==> Deeper(reason, R, top)
  {
    for p := 0 to |R|
      invariant forall i :: 0 <= i < p && R[i] != top && -R[i] in reason ==> reason[-R[i]].Decision?
    {
      var k := R[p];
      assert k in R;
      if k != top && !reason[-k].Decision? {
        return true;
      }
    }
    return false;
  }

  // ---------- the clause becomes the reason ----------

  /** The true literal l gets another reason. */
  function RereasonState(s: State, l: Lit, r: Reason): State
    requires l in s.T.rsn
  {
    s.(T := s.T.(rsn := s.T.rsn[l := r]), locked := s.locked - LockOf(s.T.rsn[l]) + LockOf(r),
       k := Locking(Unlocking(s.k, s.D, s.T.rsn[l]), s.D, r))
  }

  ghost predicate CanRereason(s: State, l: Lit, r: Reason) {
    && l in s.T.rsn && l in s.T.lev && s.T.lev[l] > 0
    && !r.Decision? && !s.T.rsn[l].Decision?
    && (r.Implied? ==> Entails(s.F, [-r.other, l]) && IsReason(s.T, l, [-r.other, l]))
    && (r.Antecedent? ==> r.c in s.D.cls && IsReason(s.T, l, s.D.cls[r.c]) && r.c !in s.locked)
  }

  lemma RereasonTrail(n: nat, T: Trail, l: Lit, r: Reason)
    requires TrailOk(n, T) && l in T.rsn && !r.Decision? && !T.rsn[l].Decision?
    ensures TrailOk(n, T.(rsn := T.rsn[l := r]))
  {
    var U := T.(rsn := T.rsn[l := r]);
    assert forall k :: IsDecision(U, k) <==> IsDecision(T, k);
    forall d | 1 <= d <= U.dl
      ensures HasDecision(U, d)
    {
      assert HasDecision(T, d);
      var k :| IsDecision(T, k) && k in T.lev && T.lev[k] == d;
      assert IsDecision(U, k) && k in U.lev && U.lev[k] == d;
    }
  }

  lemma RereasonReasons(s: State, l: Lit, r: Reason)
    requires ReasonsOk(s.T, s.D.cls) && CanRereason(s, l, r)
    ensures ReasonsOk(RereasonState(s, l, r).T, s.D.cls)
  {
    hide Entails;
    var U := RereasonState(s, l, r).T;
    forall k | k in U.rsn
      ensures ReasonOk(U, s.D.cls, k)
    {
      if k != l {
        assert ReasonOk(s.T, s.D.cls, k);
        OtherReason(s.T, s.D.cls, l, r, k);
      }
    }
  }

  lemma OtherReason(T: Trail, cls: map<Cid, Clause>, l: Lit, r: Reason, k: Lit)
    requires k in T.rsn && k != l && ReasonOk(T, cls, k)
    ensures ReasonOk(T.(rsn := T.rsn[l := r]), cls, k)
  {
  }

  lemma RereasonSound(s: State, l: Lit, r: Reason)
    requires TrailSound(s.F, s.T) && CanRereason(s, l, r)
    ensures TrailSound(s.F, RereasonState(s, l, r).T)
  {
    hide Entails, IsReason;
    var U := RereasonState(s, l, r).T;
    forall k | k in U.rsn
      ensures ReasonSound(s.F, U, k)
    {
      assert k != l ==> ReasonSound(s.F, s.T, k);
    }
    forall k | k in U.lev
      ensures TopSound(s.F, U, k)
    {
      assert TopSound(s.F, s.T, k);
    }
  }

  lemma RereasonLocked(s: State, l: Lit, r: Reason)
    requires TrailOk(s.n, s.T) && ReasonsOk(s.T, s.D.cls) && l in s.T.rsn && s.locked == LockedBy(s.T.rsn)
    ensures RereasonState(s, l, r).locked == LockedBy(RereasonState(s, l, r).T.rsn)
  {
    hide Indexed, Consistent, Layered, Decided, ReasonsOk;
    var rsn, rsn' := s.T.rsn, s.T.rsn[l := r];
    forall c | c in LockedBy(rsn) - LockOf(rsn[l]) + LockOf(r)
      ensures c in LockedBy(rsn')
    {
      if c in LockOf(r) {
        assert rsn'[l].Antecedent? && rsn'[l].c == c;
      } else {
        var k :| k in rsn && rsn[k].Antecedent? && rsn[k].c == c;
        assert k in rsn' && rsn'[k].Antecedent? && rsn'[k].c == c;
      }
    }
    forall c | c in LockedBy(rsn')
      ensures c in LockedBy(rsn) - LockOf(rsn[l]) + LockOf(r)
    {
      var k :| k in rsn' && rsn'[k].Antecedent? && rsn'[k].c == c;
      if k != l {
        assert k in rsn && rsn[k].Antecedent? && rsn[k].c == c;
        if c in LockOf(rsn[l]) {
          UniqueReason(s.n, s.T, s.D.cls, l, k);
        }
      }
    }
  }

  lemma RereasonInv(s: State, l: Lit, r: Reason)
    requires TrailInv(s) && CanRereason(s, l, r)
    ensures TrailInv(RereasonState(s, l, r))
  {
    hide TrailOk, ReasonsOk, TrailSound, LockedBy, IsReason, Entails;
    RereasonTrail(s.n, s.T, l, r);
    RereasonReasons(s, l, r);
    RereasonSound(s, l, r);
    RereasonLocked(s, l, r);
  }

  lemma RereasonRest(s: State, x: Exempt, l: Lit, r: Reason)
    requires Invariant(s, x) && CanRereason(s, l, r)
    ensures var t := RereasonState(s, l, r);
      StoreInv(t) && WatchInv(t, x) && QueueOk(t) && ConflictOk(t) && EmptyOk(t) && FormulaOk(t.n, t.F)
  {
    hide TrailInv, AssumptionsOk, IsReason, FormulaOk, Entails;
    hide ClausesOk, ImplsOk, ListsOk, StacksOk, ClausesEntailed, ImplsEntailed;
    assert CanRereason(s, l, r);
    hide CanRereason;
    SameWatch(s, x, RereasonState(s, l, r));
  }

  lemma RereasonAssumptions(s: State, l: Lit, r: Reason)
    requires AssumptionsOk(s) && CanRereason(s, l, r)
    ensures AssumptionsOk(RereasonState(s, l, r))
  {
    hide IsReason, Entails;
    var t := RereasonState(s, l, r);
    assert forall k :: IsDecision(t.T, k) <==> IsDecision(s.T, k);
  }

  lemma RereasonTally(s: State, x: Exempt, l: Lit, r: Reason)
    requires Invariant(s, x) && CanRereason(s, l, r)
    ensures TallyOk(RereasonState(s, l, r))
  {
    hide TrailOk, ReasonsOk, TrailSound, TopUnits, StoreInv, WatchInv;
    hide QueueOk, AssumptionsOk, ConflictOk, EmptyOk, FormulaOk;
    hide IsReason, Entails, CountersOf;
    StacksDistinct(s);
    var old_ := s.T.rsn[l];
    if old_.Antecedent? {
      assert old_.c in LockedBy(s.T.rsn);
      UnlockCounts(s.D, s.locked, s.ocls, s.lcls, old_);
    } else {
      assert s.locked - {} == s.locked;
    }
    var rest := s.locked - LockOf(old_);
    if r.Antecedent? {
      LockCounts(s.D, rest, s.ocls, s.lcls, r);
    } else {
      assert rest + {} == rest;
    }
  }

  lemma RereasonKeeps(s: State, x: Exempt, l: Lit, r: Reason)
    requires Invariant(s, x) && CanRereason(s, l, r)
    ensures Invariant(RereasonState(s, l, r), x)
  {
    hide TrailInv, StoreInv, WatchInv, QueueOk, AssumptionsOk, ConflictOk;
    hide EmptyOk, FormulaOk, TallyOk, CanRereason, RereasonState;
    RereasonInv(s, l, r);
    RereasonRest(s, x, l, r);
    RereasonAssumptions(s, l, r);
    RereasonTally(s, x, l, r);
  }

  // ---------- the watches of the clause ----------

  /** Two literals with the least key come first. */
  lemma TwoLeast(lev: map<Lit, nat>, dl: nat, s: Clause, i: nat, j: nat, c: Clause, key: int)
    requires NoDup(s) && i < j < |s| && c == SortLits(lev, dl, s)
    requires Key(lev, dl, s[i]) == key && Key(lev, dl, s[j]) == key
    requires forall l :: l in s ==> key <= Key(lev, dl, l)
    ensures |c| == |s| && NoDup(c) && c[0] in s && c[1] in s && Key(lev, dl, c[0]) == key && Key(lev, dl, c[1]) == key
  {
    hide Key;
    SortKeeps(lev, dl, s);
    SortSorts(lev, dl, s);
    hide SortLits;
    assert s[i] in c && s[j] in c && c[0] in s && c[1] in s;
    var z :| 0 <= z < |c| && c[z] == s[i];
    var y :| 0 <= y < |c| && c[y] == s[j];
  }

  lemma ExplainsKey(s: State, top: Lit, added: Clause, l: Lit)
    requires Sound(s) && Explains(s, top, added) && l in added
    ensures l != top ==>
      IsDecision(s.T, -l) && -l in s.T.pos && -l in s.T.lev && -l in s.T.lev && s.T.lev[-l] <= s.T.lev[top]
    ensures Key(s.T.lev, s.T.dl, l) == 1 + s.T.dl - (if l == top then s.T.lev[top] else s.T.lev[-l])
  {
    hide ClausesEntailed, TrailSound, ReasonsOk, LockedBy, TopUnits, Decided, Entails;
    var i :| 0 <= i < |added| && added[i] == l;
    if l != top {
      assert i > 0;
      assert -(-l) !in s.T.pos;
      assert s.T.pos[-l] <= s.T.pos[top];
    }
  }

  /** Decisions of the same level are the same. */
  lemma OneDecision(s: State, k: Lit, l: Lit)
    requires Sound(s) && IsDecision(s.T, k) && IsDecision(s.T, l)
    requires k in s.T.lev && l in s.T.lev && s.T.lev[k] == s.T.lev[l]
    ensures k == l
  {
    hide ClausesEntailed, TrailSound, ReasonsOk, LockedBy, TopUnits, Layered, Consistent;
    assert k in s.T.pos && l in s.T.pos;
    assert !(s.T.pos[k] < s.T.pos[l]) && !(s.T.pos[l] < s.T.pos[k]);
    assert s.T.lits[s.T.pos[k]] == k;
  }

  /** One of the two watches is true, and it has the level of the other. */
  lemma ExplainsPair(s: State, top: Lit, added: Clause, w: Lit, o: Lit, b: nat)
    requires Sound(s) && Explains(s, top, added) && w in added && o in added && w != o
    requires Key(s.T.lev, s.T.dl, w) == 1 + s.T.dl - s.T.lev[top] == Key(s.T.lev, s.T.dl, o)
    ensures WatchOk(s.T, b, w, o)
  {
    hide Sound, Explains, IsDecision, Key;
    ExplainsKey(s, top, added, w);
    ExplainsKey(s, top, added, o);
    ExplainsTop(s, top, added);
    if w != top && o != top {
      OneDecision(s, -w, -o);
    }
  }

  lemma ExplainsTop(s: State, top: Lit, added: Clause)
    requires Sound(s) && Explains(s, top, added)
    ensures top in s.T.pos && top in s.T.lev && -top !in s.T.pos
  {
    hide ClausesEntailed, TrailSound, ReasonsOk, LockedBy, TopUnits, Layered, Entails;
  }

  lemma ExplainsWatched(s: State, top: Lit, added: Clause, b: nat, c: Clause)
    requires Sound(s) && Explains(s, top, added)
    requires c == (if |added| == 2 then added else SortLits(s.T.lev, s.T.dl, added))
    ensures |c| == |added| >= 2 && WatchOk(s.T, b, c[0], c[1]) && WatchOk(s.T, b, c[1], c[0])
  {
    hide Sound, IsDecision, Key, SortLits, Entails;
    var i :| 1 <= i < |added| && -added[i] in s.T.lev && s.T.lev[-added[i]] == s.T.lev[top];
    hide Explains;
    var key := 1 + s.T.dl - s.T.lev[top];
    ExplainsFirst(s, top, added, i);
    forall l | l in added
      ensures key <= Key(s.T.lev, s.T.dl, l)
    {
      ExplainsKey(s, top, added, l);
    }
    ExplainsKey(s, top, added, added[0]);
    ExplainsKey(s, top, added, added[i]);
    if |added| > 2 {
      TwoLeast(s.T.lev, s.T.dl, added, 0, i, c, key);
    }
    ExplainsPair(s, top, added, c[0], c[1], b);
    ExplainsPair(s, top, added, c[1], c[0], b);
  }

  lemma ExplainsFirst(s: State, top: Lit, added: Clause, i: nat)
    requires Explains(s, top, added) && 1 <= i < |added|
    ensures added[0] == top && added[0] in added && added[i] in added && added[i] != top && NoDup(added)
    ensures added[0] != added[1]
  {
    hide Entails;
  }

  lemma ExplainsReason(s: State, top: Lit, added: Clause)
    requires Sound(s) && Explains(s, top, added)
    ensures IsReason(s.T, top, added)
  {
    hide ClausesEntailed, TrailSound, ReasonsOk, LockedBy, TopUnits, Layered, Entails, Decided, Consistent;
    assert added[0] in added;
    forall k | k in added && k != top
      ensures -k in s.T.pos && s.T.pos[-k] < s.T.pos[top]
    {
      var i :| 0 <= i < |added| && added[i] == k;
      assert i > 0;
    }
    var i :| 1 <= i < |added| && -added[i] in s.T.lev && s.T.lev[-added[i]] == s.T.lev[top];
    ExplainsFirst(s, top, added, i);
    var k := added[i];
    assert k in added && k != top;
  }

  /** The state after the clause is added and has become the reason of top. */
  ghost function ExplainedState(s: State, top: Lit, added: Clause): State
    requires top in s.T.rsn
  {
    var t := StoreState(s, added, true, true);
    StoreFrame(s, added, true, true);
    RereasonState(t, top, LearnedReason(added, s.next))
  }

  lemma ExplainedCan(s: State, top: Lit, added: Clause)
    requires Invariant(s, NOTHING) && Explains(s, top, added) && top in s.T.rsn && !IsDecision(s.T, top)
    requires s.T.lev[top] > 0
    ensures CanRereason(StoreState(s, added, true, true), top, LearnedReason(added, s.next))
  {
    hide Invariant, Sound, Entails, SortLits, IsReason, IsDecision;
    InvariantSound(s, NOTHING);
    InvFresh(s, NOTHING);
    NotLocked(s);
    ExplainsReason(s, top, added);
    DecisionIs(s.T, top);
    if |added| == 2 {
      SwapTwo(added);
      ReasonSame(s.T, top, added, [added[1], added[0]]);
      EntailsSame(s.F, added, [added[1], added[0]]);
    } else {
      SortKeeps(s.T.lev, s.T.dl, added);
      ReasonSame(s.T, top, added, SortLits(s.T.lev, s.T.dl, added));
    }
  }

  lemma NotLocked(s: State)
    requires Invariant(s, NOTHING) && s.next !in s.D.cls
    ensures s.next !in s.locked
  {
    hide TrailInv, StoreInv, WatchInv, QueueOk, AssumptionsOk, ConflictOk, EmptyOk, FormulaOk, TallyOk;
    NextUnlocked(s);
  }

  lemma ExplainedRepaired(s: State, top: Lit, added: Clause)
    requires Sound(s) && Explains(s, top, added) && top in s.T.rsn
    ensures Repaired(ExplainedState(s, top, added), Widen(s, NOTHING, added))
  {
    hide Sound, Entails, SortLits, Explains, WatchOk;
    var c := if |added| == 2 then added else SortLits(s.T.lev, s.T.dl, added);
    var u := ExplainedState(s, top, added);
    StoreFrame(s, added, true, true);
    ExplainsWatched(s, top, added, s.wdone, c);
    ExplainsWatched(s, top, added, s.bdone, c);
    SameWatchOk(s.T, u.T, s.wdone, c[0], c[1]);
    SameWatchOk(s.T, u.T, s.wdone, c[1], c[0]);
    SameWatchOk(s.T, u.T, s.bdone, c[0], c[1]);
    SameWatchOk(s.T, u.T, s.bdone, c[1], c[0]);
    if |added| != 2 {
      assert u.D.cls[s.next] == c;
    }
  }

  lemma SameWatchOk(T: Trail, U: Trail, b: nat, w: Lit, o: Lit)
    requires T.pos == U.pos && T.lev == U.lev
    ensures WatchOk(T, b, w, o) ==> WatchOk(U, b, w, o)
  {
  }

  /** What learning from a failed assumption does: top gets the clause of the decisions it depends on as its reason. */
  ghost predicate Explained(s: State, u: State, top: Lit) {
    if Explainable(s.T.rsn, s.D.cls, top)
    then exists added :: Explains(s, top, added) && NegatesDecisions(s.T, s.D.cls, top, added)
                         && top in s.T.rsn && u == ExplainedState(s, top, added)
    else u == s
  }

  lemma ExplainedBy(s: State, u: State, top: Lit, added: Clause)
    requires Explainable(s.T.rsn, s.D.cls, top)
    requires Explains(s, top, added) && NegatesDecisions(s.T, s.D.cls, top, added)
    requires top in s.T.rsn && u == ExplainedState(s, top, added)
    ensures Explained(s, u, top)
  {
    hide Explains, NegatesDecisions, ExplainedState, Explainable;
  }

  lemma NothingExplained(s: State, top: Lit)
    requires !Explainable(s.T.rsn, s.D.cls, top)
    ensures Explained(s, s, top)
  {
    hide Explains, NegatesDecisions, ExplainedState, Explainable;
  }

  /** Learning why an assumption failed keeps the invariant. */
  lemma ExplainedKeeps(s: State, top: Lit, added: Clause)
    requires Invariant(s, NOTHING) && Explains(s, top, added) && top in s.T.rsn && !IsDecision(s.T, top)
    requires s.T.lev[top] > 0
    ensures Invariant(ExplainedState(s, top, added), NOTHING)
  {
    hide Invariant, StoreState, RereasonState, CanRereason, Repaired, IsDecision, Entails, Sound, ClauseOk, Widen;
    var t := StoreState(s, added, true, true);
    StoreFrame(s, added, true, true);
    ExplainedCan(s, top, added);
    StoreKeeps(s, NOTHING, added, true, true);
    RereasonKeeps(t, Widen(s, NOTHING, added), top, LearnedReason(added, s.next));
    InvariantSound(s, NOTHING);
    ExplainedRepaired(s, top, added);
    RepairKeeps(ExplainedState(s, top, added), Widen(s, NOTHING, added));
  }

  // ---------- all failed assumptions ----------

  /** The assumptions whose variable is in vars. */
  function Core(als: seq<Lit>, vars: set<nat>): set<Lit> {
    set a | a in als && Var(a) in vars
  }

  /** failed is a false assumption, and every decision is an assumption. */
  ghost predicate Lost(s: State, failed: Lit) {
    && failed in s.als && -failed in s.T.lev
    && forall l :: IsDecision(s.T, l) && l in s.T.lev ==> l in s.als
  }

  /** Marks the variables of the assumptions that the search from the failed assumption meets. */
  method MarkFailed(level: map<Lit, nat>, reason: map<Lit, Reason>, cls: map<Cid, Clause>, als: seq<Lit>, failed: Lit,
                    ghost s: State)
    returns (vars: set<nat>)
    requires Sound(s) && level == s.T.lev && reason == s.T.rsn && cls == s.D.cls && als == s.als
    requires Lost(s, failed)
    ensures Refuted(s.F, Core(als, vars))
    ensures forall v :: v in vars ==> exists a :: a in als && Var(a) == v
    ensures forall a :: a in als ==>
      (Var(a) in vars <==> DependsOn(s.T, cls, -failed, a) || DependsOn(s.T, cls, -failed, -a))
  {
    hide *;
    var top := -failed;
    LostTop(s, failed);
    TraceStart(s, top);
    var marks, marked, pos := {top}, [top], 0;
    while pos < |marked|
      invariant Tracing(s.T, cls, top, marks, marked, pos)
      decreases Unmarked(s.T, marks), |marked| - pos
    {
      marks, marked := TraceNext(level, reason, cls, marks, marked, pos, s, top);
      pos := pos + 1;
      TraceLength(s.T, cls, top, marks, marked, pos);
    }
    TraceLength(s.T, cls, top, marks, marked, pos);
    vars := {};
    for p := 0 to |als|
      invariant forall i :: 0 <= i < p && (als[i] in marks || -als[i] in marks) ==> Var(als[i]) in vars
      invariant forall v :: v in vars ==> exists a :: a in als && Var(a) == v && (a in marks || -a in marks)
    {
      var a := als[p];
      assert a in als;
      if a in marks || -a in marks {
        vars := vars + {Var(a)};
      }
    }
    CoreRefuted(s, failed, marks, marked, vars);
    forall a | a in als
      ensures Var(a) in vars <==> DependsOn(s.T, cls, -failed, a) || DependsOn(s.T, cls, -failed, -a)
    {
      TracedAll(s.T, cls, top, marks, marked, a);
      TracedAll(s.T, cls, top, marks, marked, -a);
      VarLits(a);
    }
  }

  /** A variable has two literals. */
  lemma VarLits(a: Lit)
    ensures forall b :: Var(b) == Var(a) <==> b == a || b == -a
  {
  }

  lemma LostTop(s: State, failed: Lit)
    requires Lost(s, failed)
    ensures -failed in s.T.lev
  {
  }

  lemma CoreRefuted(s: State, failed: Lit, marks: set<Lit>, marked: seq<Lit>, vars: set<nat>)
    requires Sound(s) && Lost(s, failed)
    requires Tracing(s.T, s.D.cls, -failed, marks, marked, |marked|)
    requires forall i :: 0 <= i < |s.als| && (s.als[i] in marks || -s.als[i] in marks) ==> Var(s.als[i]) in vars
    ensures Refuted(s.F, Core(s.als, vars))
  {
    hide Sound, Models, Tracing;
    var top := -failed;
    TopMarked(s.T, s.D.cls, top, marks, marked);
    TraceFacts(s, top, marks, marked, |marked|);
    forall d | d in Decisions(s.T, marks) || d == failed
      ensures d in Core(s.als, vars)
    {
      if d != failed {
        MarkedHas(s.T, s.D.cls, top, marks, marked, d);
        assert d in s.T.lev;
      }
      var i :| 0 <= i < |s.als| && s.als[i] == d;
    }
    hide Core, Decisions;
    forall m: Model | Models(m, s.F)
      ensures !Agrees(m, Core(s.als, vars))
    {
      if Agrees(m, Core(s.als, vars)) {
        assert Holds(m, failed);
        TraceHolds(s, top, marks, marked, m);
        assert false;
      }
    }
  }
}
