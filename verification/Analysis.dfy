/** Conflict analysis: the first unique implication point, and minimization of the learned clause. */
module Analysis {
  import opened Cnf
  import opened Trails
  import opened Inference
  import opened States
  import Heap

  /** The true literals whose negations occur in c. */
  ghost function Against(T: Trail, c: Clause): set<Lit> {
    set l | l in T.pos && -l in c
  }

  lemma Pick(A: set<Lit>) returns (l: Lit)
    requires A != {}
    ensures l in A
  {
    assert (forall k :: k !in A) ==> A == {};
    l :| l in A;
  }

  /** What analysis needs of the state: a sound trail over sound clauses. */
  ghost predicate Sound(s: State) {
    && TrailInv(s)
    && ClausesEntailed(s.F, s.D.cls)
  }

  ghost predicate Range(T: Trail, M: set<Lit>, marked: seq<Lit>, cur: set<Lit>, open: int) {
    && NoDup(marked)
    && (forall l :: l in M <==> l in marked || l in cur)
    && (forall l :: l in marked ==> l in T.pos && l in T.lev && T.lev[l] < T.dl)
    && (forall l :: l in cur ==> l in T.pos && l in T.lev && T.lev[l] == T.dl)
    && open == |cur|
  }

  /** Levels of marked literals are at least minlevel, and their remainders are among siglevels. */
  ghost predicate Signed(T: Trail, marked: seq<Lit>, minlevel: nat, siglevels: set<nat>) {
    forall l :: l in marked && l in T.lev && T.lev[l] > 0 ==> minlevel <= T.lev[l] && T.lev[l] % 32 in siglevels
  }

  lemma SignedMore(T: Trail, marked: seq<Lit>, minlevel: nat, siglevels: set<nat>, u: Lit)
    requires Signed(T, marked, minlevel, siglevels) && u in T.lev
    ensures T.lev[u] == 0 ==> Signed(T, marked + [u], minlevel, siglevels)
    ensures var l := T.lev[u];
      Signed(T, marked + [u], if l < minlevel then l else minlevel, siglevels + {l % 32})
  {
  }

  // ---------- bumped variables ----------

  /** The variables of the literals above top level. */
  ghost function VarsAbove(T: Trail, S: set<Lit>): set<nat> {
    set l | l in S && l in T.lev && T.lev[l] > 0 :: Var(l)
  }

  lemma VarsApart(T: Trail, S: set<Lit>, R: set<Lit>)
    requires S !! R && (forall l :: l in S + R ==> l in T.pos) && forall l :: l in T.pos ==> -l !in T.pos
    ensures VarsAbove(T, S) !! VarsAbove(T, R) && VarsAbove(T, S + R) == VarsAbove(T, S) + VarsAbove(T, R)
  {
    forall l, k | l in S && k in R
      ensures Var(l) != Var(k)
    {
      assert l in S + R && k in S + R;
    }
  }

  lemma VarOne(T: Trail, u: Lit)
    requires u in T.lev
    ensures VarsAbove(T, {u}) == if T.lev[u] > 0 then {Var(u)} else {}
  {
    assert T.lev[u] > 0 ==> u in {u} && Var(u) in VarsAbove(T, {u});
  }

  lemma NoVars(T: Trail)
    ensures VarsAbove(T, {}) == {}
  {
  }

  /** The scores after the literals of S were bumped, and then those of R. */
  lemma BumpMore(T: Trail, a: Heap.Scores, b: Heap.Scores, c: Heap.Scores, S: set<Lit>, R: set<Lit>)
    requires Heap.Bumps(a, b, VarsAbove(T, S)) && Heap.Bumps(b, c, VarsAbove(T, R))
    requires S !! R && (forall l :: l in S + R ==> l in T.pos) && forall l :: l in T.pos ==> -l !in T.pos
    ensures Heap.Bumps(a, c, VarsAbove(T, S + R))
  {
    hide Heap.Bumps, VarsAbove;
    VarsApart(T, S, R);
    Heap.BumpsOn(a, b, c, VarsAbove(T, S), VarsAbove(T, R));
  }

  /** Marks the variable of one literal and bumps its score. */
  method Mark(level: map<Lit, nat>, dl: nat, u: Lit, marks: set<Lit>, marked: seq<Lit>, open: int, minlevel: nat,
              siglevels: set<nat>, heap: Heap.VarHeap, ghost T: Trail, ghost cur: set<Lit>, ghost n: nat,
              ghost waiting: set<nat>)
    returns (marks': set<Lit>, marked': seq<Lit>, open': int, minlevel': nat, siglevels': set<nat>,
      ghost cur': set<Lit>)
    requires level == T.lev && dl == T.dl && u !in marks && u in T.pos && u in T.lev && T.lev[u] <= dl
    requires Range(T, marks, marked, cur, open) && Signed(T, marked, minlevel, siglevels)
    requires heap.Holding(n, waiting) && 1 <= Var(u) <= n
    modifies heap
    ensures Range(T, marks', marked', cur', open') && Signed(T, marked', minlevel', siglevels')
    ensures marks' == marks + {u} && cur <= cur'
    ensures heap.Holding(n, waiting) && Heap.Bumps(old(heap.Scored()), heap.Scored(), VarsAbove(T, {u}))
  {
    hide Range, Signed, VarsAbove, Heap.Bumps;
    VarOne(T, u);
    marks', marked', open', minlevel', siglevels', cur' := marks, marked, open, minlevel, siglevels, cur;
    RangeGrows(T, marks', marked', cur', open', u);
    SignedMore(T, marked', minlevel', siglevels', u);
    marks' := marks' + {u};
    heap.Bump(Var(u), level[u], n, waiting);
    if level[u] == dl {
      open' := open' + 1;
      cur' := cur' + {u};
    } else {
      marked' := marked' + [u];
      if level[u] > 0 {
        if level[u] < minlevel' {
          minlevel' := level[u];
        }
        siglevels' := siglevels' + {level[u] % 32};
      }
    }
  }

  /** Marks the variables of the false literals of c and bumps their scores. Those below the current level go on the
      marked stack. */
  method Scan(level: map<Lit, nat>, dl: nat, c: Clause, marks: set<Lit>, marked: seq<Lit>, open: int,
              minlevel: nat, siglevels: set<nat>, heap: Heap.VarHeap, ghost T: Trail, ghost cur: set<Lit>,
              ghost n: nat, ghost waiting: set<nat>)
    returns (marks': set<Lit>, marked': seq<Lit>, open': int, minlevel': nat, siglevels': set<nat>,
      ghost cur': set<Lit>)
    requires Indexed(T) && Layered(T) && level == T.lev && dl == T.dl
    requires forall l :: l in c ==> l in T.pos || -l in T.pos
    requires forall l :: l in T.pos ==> -l !in T.pos
    requires Range(T, marks, marked, cur, open)
    requires heap.Holding(n, waiting) && forall l :: l in T.pos ==> 1 <= Var(l) <= n
    requires Signed(T, marked, minlevel, siglevels)
    modifies heap
    ensures Range(T, marks', marked', cur', open')
    ensures marks' == marks + Against(T, c)
    ensures cur <= cur' && Signed(T, marked', minlevel', siglevels')
    ensures heap.Holding(n, waiting)
    ensures Heap.Bumps(old(heap.Scored()), heap.Scored(), VarsAbove(T, Against(T, c) - marks))
  {
    hide Indexed, Layered, Range, Against, Signed, VarsAbove, Heap.Bumps;
    AgainstNone(T);
    AgainstTrue(T, c);
    Heap.BumpsNothing(heap.Scored());
    NoVars(T);
    assert c[..0] == [] && {} - marks == {} && marks + {} == marks;
    marks', marked', open', minlevel', siglevels' := marks, marked, open, minlevel, siglevels;
    cur' := cur;
    var p := 0;
    while p < |c|
      invariant 0 <= p <= |c|
      invariant Range(T, marks', marked', cur', open')
      invariant marks' == marks + Against(T, c[..p])
      invariant cur <= cur' && Signed(T, marked', minlevel', siglevels')
      invariant heap.Holding(n, waiting)
      invariant Heap.Bumps(old(heap.Scored()), heap.Scored(), VarsAbove(T, Against(T, c[..p]) - marks))
    {
      var other := c[p];
      assert c[..p + 1] == c[..p] + [other];
      assert other in c;
      KnownLevel(T, other);
      KnownLevel(T, -other);
      AgainstStep(T, c[..p], other);
      if other !in level {
        var u := -other;
        assert u in T.pos;
        if u !in marks' {
          ghost var before, S := heap.Scored(), Against(T, c[..p]) - marks;
          marks', marked', open', minlevel', siglevels', cur' :=
            Mark(level, dl, u, marks', marked', open', minlevel', siglevels', heap, T, cur', n, waiting);
          AgainstTrue(T, c[..p]);
          BumpMore(T, old(heap.Scored()), before, heap.Scored(), S, {u});
          assert S + {u} == Against(T, c[..p + 1]) - marks;
        } else {
          assert Against(T, c[..p + 1]) - marks == Against(T, c[..p]) - marks;
        }
      } else {
        assert Against(T, c[..p + 1]) == Against(T, c[..p]);
      }
      p := p + 1;
    }
    assert c[..p] == c;
  }

  lemma NothingSigned(T: Trail, minlevel: nat, siglevels: set<nat>)
    ensures Signed(T, [], minlevel, siglevels)
  {
  }

  lemma RangeGrows(T: Trail, M: set<Lit>, marked: seq<Lit>, cur: set<Lit>, open: int, u: Lit)
    requires Range(T, M, marked, cur, open) && u !in M
    requires u in T.pos && u in T.lev
    ensures T.lev[u] == T.dl ==> Range(T, M + {u}, marked, cur + {u}, open + 1)
    ensures T.lev[u] < T.dl ==> Range(T, M + {u}, marked + [u], cur, open)
  {
    assert u !in marked && u !in cur;
  }

  lemma KnownLevel(T: Trail, l: Lit)
    requires Indexed(T) && Layered(T)
    ensures l in T.pos <==> l in T.lev
    ensures l in T.lev ==> T.lev[l] <= T.dl
  {
  }

  lemma AgainstNone(T: Trail)
    ensures Against(T, []) == {}
  {
  }

  lemma AgainstTrue(T: Trail, c: Clause)
    ensures forall l :: l in Against(T, c) ==> l in T.pos
  {
  }

  lemma AgainstStep(T: Trail, c: Clause, k: Lit)
    ensures Against(T, c + [k]) == Against(T, c) + (if -k in T.pos then {-k} else {})
  {
    forall l | l in Against(T, c + [k])
      ensures l in Against(T, c) + (if -k in T.pos then {-k} else {})
    {
      if -l !in c {
        assert -l == k;
      }
    }
  }

  // ---------- the first unique implication point ----------

  /** M are the marked true literals with c still to be scanned; those of the current level lie below q. */
  ghost predicate Searching(s: State, c: Clause, M: set<Lit>, marked: seq<Lit>, cur: set<Lit>, open: int, q: nat) {
    && Range(s.T, M, marked, cur, open)
    && q <= |s.T.lits|
    && (forall l :: l in c ==> l in s.T.pos || -l in s.T.pos)
    && (forall l :: l in s.T.pos && l in s.T.lev && s.T.lev[l] == s.T.dl && (l in cur || l in Against(s.T, c)) ==>
      s.T.pos[l] < q)
    && (s.T.dl > 0 ==> exists l :: l in cur + Against(s.T, c) && l in s.T.lev && s.T.lev[l] == s.T.dl)
    && Refuted(s.F, M + Against(s.T, c))
  }

  /** The same once c is scanned. */
  ghost predicate Searched(s: State, M: set<Lit>, marked: seq<Lit>, cur: set<Lit>, open: int, q: nat) {
    && Range(s.T, M, marked, cur, open)
    && q <= |s.T.lits|
    && (forall l :: l in cur && l in s.T.pos ==> s.T.pos[l] < q)
    && (s.T.dl > 0 ==> cur != {})
    && Refuted(s.F, M)
  }

  lemma ScanDone(s: State, c: Clause, M: set<Lit>, marked: seq<Lit>, cur: set<Lit>, open: int, q: nat,
                 M': set<Lit>, marked': seq<Lit>, cur': set<Lit>, open': int)
    requires Indexed(s.T) && Searching(s, c, M, marked, cur, open, q)
    requires Range(s.T, M', marked', cur', open') && M' == M + Against(s.T, c) && cur <= cur'
    ensures Searched(s, M', marked', cur', open', q)
  {
    hide Refuted;
    if s.T.dl > 0 {
      var l :| l in cur + Against(s.T, c) && l in s.T.lev && s.T.lev[l] == s.T.dl;
      assert l in M' && l !in marked';
    }
    forall l | l in cur' && l in s.T.pos
      ensures s.T.pos[l] < q
    {
      assert l in M';
      if l in M {
        assert l !in marked;
      }
    }
  }

  /** The latest marked literal of the trail below q. */
  ghost predicate Latest(T: Trail, M: set<Lit>, q: nat, i: nat) {
    && i < q <= |T.lits|
    && T.lits[i] in M
    && forall j :: i < j < q ==> T.lits[j] !in M
  }

  lemma LatestCurrent(s: State, M: set<Lit>, marked: seq<Lit>, cur: set<Lit>, open: int, q: nat, i: nat)
    requires Indexed(s.T) && Layered(s.T)
    requires Searched(s, M, marked, cur, open, q) && Latest(s.T, M, q, i)
    ensures var t := s.T.lits[i];
      && t in cur && t in s.T.pos && s.T.pos[t] == i
      && Range(s.T, M - {t}, marked, cur - {t}, open - 1)
      && forall l :: l in cur - {t} && l in s.T.pos ==> s.T.pos[l] < i
  {
    hide Refuted;
    var t := s.T.lits[i];
    forall l | l in cur && l in s.T.pos
      ensures s.T.pos[l] <= i
    {
      assert l in M && s.T.lits[s.T.pos[l]] == l;
    }
    if s.T.dl > 0 {
      var l := Pick(cur);
      assert s.T.pos[l] <= s.T.pos[t];
      assert s.T.lev[l] <= s.T.lev[t];
    }
  }

  lemma ResolveAgrees(F: set<Clause>, T: Trail, M: set<Lit>, t: Lit, R: Clause, m: Model)
    requires t in M && Entails(F, R) && IsReason(T, t, R) && Models(m, F)
    requires forall l :: l in T.pos ==> l != 0
    requires Agrees(m, (M - {t}) + Against(T, R))
    ensures Agrees(m, M)
  {
    hide Models;
    var k :| k in R && Holds(m, k);
    assert k != t ==> -k in Against(T, R) && !Holds(m, -k);
  }

  lemma Resolve(F: set<Clause>, T: Trail, M: set<Lit>, t: Lit, R: Clause)
    requires Refuted(F, M) && t in M && Entails(F, R) && IsReason(T, t, R)
    requires forall l :: l in T.pos ==> l != 0
    ensures Refuted(F, (M - {t}) + Against(T, R))
  {
    hide Models, Agrees;
    var N := (M - {t}) + Against(T, R);
    forall m: Model | Models(m, F)
      ensures !Agrees(m, N)
    {
      if Agrees(m, N) {
        ResolveAgrees(F, T, M, t, R, m);
      }
    }
  }

  lemma NextReason(s: State, M: set<Lit>, marked: seq<Lit>, cur: set<Lit>, open: int, q: nat, i: nat)
    requires Sound(s)
    requires Searched(s, M, marked, cur, open, q) && Latest(s.T, M, q, i)
    requires var t := s.T.lits[i]; t in s.T.rsn && !s.T.rsn[t].Decision? && (open == 1 ==> s.T.dl == 0)
    ensures var t := s.T.lits[i];
      && (s.T.rsn[t].Antecedent? ==> s.T.rsn[t].c in s.D.cls)
      && Searching(s, ReasonLits(s.T.rsn, s.D.cls, t), M - {t}, marked, cur - {t}, open - 1, i)
  {
    hide ClausesEntailed, TrailSound, Refuted, Entails, ReasonsOk, LockedBy;
    hide TopUnits, Decided, Range, IsReason, Searching;
    var t := s.T.lits[i];
    LatestCurrent(s, M, marked, cur, open, q, i);
    ReasonEntailed(s.F, s.T, s.D.cls, t);
    RangeIn(s.T, M, marked, cur, open, t);
    Resolve(s.F, s.T, M, t, ReasonLits(s.T.rsn, s.D.cls, t));
    hide Indexed, Layered, Consistent;
    SearchOn(s, ReasonLits(s.T.rsn, s.D.cls, t), M, marked, cur, open, t);
  }

  lemma SearchOn(s: State, R: Clause, M: set<Lit>, marked: seq<Lit>, cur: set<Lit>, open: int, t: Lit)
    requires IsReason(s.T, t, R) && t in s.T.pos && -t !in s.T.pos && s.T.pos[t] < |s.T.lits|
    requires Range(s.T, M, marked, cur, open) && t in cur
    requires Range(s.T, M - {t}, marked, cur - {t}, open - 1)
    requires forall l :: l in cur - {t} && l in s.T.pos ==> s.T.pos[l] < s.T.pos[t]
    requires Refuted(s.F, (M - {t}) + Against(s.T, R))
    requires open == 1 ==> s.T.dl == 0
    ensures Searching(s, R, M - {t}, marked, cur - {t}, open - 1, s.T.pos[t])
  {
    hide Refuted, Range, IsReason;
    ReasonRange(s.T, t, R);
    if open != 1 {
      CurrentLeft(s, M, marked, cur, open, t);
    }
  }

  lemma RangeIn(T: Trail, M: set<Lit>, marked: seq<Lit>, cur: set<Lit>, open: int, t: Lit)
    requires Range(T, M, marked, cur, open) && t in cur
    ensures t in M
  {
  }

  lemma ReasonRange(T: Trail, t: Lit, R: Clause)
    requires IsReason(T, t, R) && t in T.pos
    ensures forall k :: k in R ==> k in T.pos || -k in T.pos
    ensures forall l :: l in Against(T, R) && l in T.pos && -t !in T.pos ==> T.pos[l] < T.pos[t]
  {
    forall l | l in Against(T, R) && -t !in T.pos
      ensures T.pos[l] < T.pos[t]
    {
      assert -l in R;
      assert -(-l) == l;
    }
  }

  lemma CurrentLeft(s: State, M: set<Lit>, marked: seq<Lit>, cur: set<Lit>, open: int, t: Lit)
    requires Range(s.T, M, marked, cur, open) && t in cur && open != 1
    ensures exists l :: l in cur - {t} && l in s.T.lev && s.T.lev[l] == s.T.dl
  {
    assert |cur - {t}| == open - 1;
    var l := Pick(cur - {t});
  }

  /** A decision is the only marked literal of its level that is left. */
  lemma DecisionLast(s: State, M: set<Lit>, marked: seq<Lit>, cur: set<Lit>, open: int, q: nat, i: nat)
    requires Sound(s)
    requires Searched(s, M, marked, cur, open, q) && Latest(s.T, M, q, i)
    requires var t := s.T.lits[i]; t in s.T.rsn && s.T.rsn[t].Decision?
    ensures open == 1 && s.T.dl > 0
  {
    hide TrailSound, Refuted, ReasonsOk, LockedBy, Consistent;
    var t := s.T.lits[i];
    LatestCurrent(s, M, marked, cur, open, q, i);
    assert IsDecision(s.T, t);
    forall l | l in cur
      ensures l == t
    {
      assert l != t ==> l in cur - {t} && l in s.T.pos;
    }
    assert cur == {t};
  }

  // ---------- what is left of a conflict when it is resolved along the trail ----------

  predicate HasReason(rsn: map<Lit, Reason>, cls: map<Cid, Clause>, l: Lit) {
    l in rsn && !rsn[l].Decision? && (rsn[l].Antecedent? ==> rsn[l].c in cls)
  }

  /** The true literals that make the conflict false, after those at positions from q on were replaced by the true
      literals of their reasons, the latest first. */
  ghost function Resolved(T: Trail, cls: map<Cid, Clause>, conflict: Clause, q: nat): set<Lit>
    requires q <= |T.lits|
    decreases |T.lits| - q
  {
    if q == |T.lits| then Against(T, conflict)
    else
      var M, t := Resolved(T, cls, conflict, q + 1), T.lits[q];
      if t in M && HasReason(T.rsn, cls, t) then M - {t} + Against(T, ReasonLits(T.rsn, cls, t)) else M
  }

  ghost predicate AtCurrent(T: Trail, l: Lit) {
    l in T.lev && T.lev[l] == T.dl
  }

  /** One literal of the current level is left. */
  ghost predicate Single(T: Trail, M: set<Lit>) {
    exists l :: l in M && AtCurrent(T, l) && forall k :: k in M && AtCurrent(T, k) ==> k == l
  }

  /** Further back than q, only D was left with a single literal of the current level. */
  ghost predicate FirstSingle(T: Trail, cls: map<Cid, Clause>, conflict: Clause, D: set<Lit>, q: nat) {
    forall p :: q <= p <= |T.lits| && Single(T, Resolved(T, cls, conflict, p)) ==> Resolved(T, cls, conflict, p) == D
  }

  /** D is what is left when, for the first time, uip is the only literal of the current level that is left. */
  ghost predicate IsFirstUip(T: Trail, cls: map<Cid, Clause>, conflict: Clause, D: set<Lit>, uip: Lit) {
    && uip in D && AtCurrent(T, uip) && (forall k :: k in D && AtCurrent(T, k) ==> k == uip)
    && exists q :: 0 < q <= |T.lits| && D == Resolved(T, cls, conflict, q) && FirstSingle(T, cls, conflict, D, q)
  }

  /** Literals that do not occur are passed over. */
  lemma {:induction false} ResolvedSkip(T: Trail, cls: map<Cid, Clause>, conflict: Clause, q: nat, q0: nat)
    requires q <= q0 <= |T.lits|
    requires forall j :: q <= j < q0 ==> T.lits[j] !in Resolved(T, cls, conflict, q0)
    ensures forall p :: q <= p <= q0 ==> Resolved(T, cls, conflict, p) == Resolved(T, cls, conflict, q0)
    decreases q0 - q
  {
    if q < q0 {
      ResolvedSkip(T, cls, conflict, q + 1, q0);
      assert T.lits[q] !in Resolved(T, cls, conflict, q + 1);
    }
  }

  /** What the search has resolved so far; before that, more than one literal of the current level was left. */
  ghost predicate Progressing(T: Trail, cls: map<Cid, Clause>, conflict: Clause, M: set<Lit>, q: nat) {
    && q <= |T.lits|
    && M == Resolved(T, cls, conflict, q)
    && (T.dl > 0 ==> forall p :: q < p <= |T.lits| ==> !Single(T, Resolved(T, cls, conflict, p)))
  }

  lemma ProgressStart(T: Trail, cls: map<Cid, Clause>, conflict: Clause)
    ensures Progressing(T, cls, conflict, {} + Against(T, conflict), |T.lits|)
  {
    assert {} + Against(T, conflict) == Against(T, conflict);
  }

  lemma ProgressFound(T: Trail, cls: map<Cid, Clause>, conflict: Clause, M: set<Lit>, marked: seq<Lit>, cur: set<Lit>,
                      q: nat, i: nat)
    requires Progressing(T, cls, conflict, M, q) && Latest(T, M, q, i) && T.dl > 0
    requires Range(T, M, marked, cur, 1) && T.lits[i] in cur
    ensures IsFirstUip(T, cls, conflict, M, T.lits[i])
  {
    hide Resolved;
    var t := T.lits[i];
    ResolvedSkip(T, cls, conflict, i + 1, q);
    assert |cur - {t}| == 0;
    assert cur == {t};
    assert 0 < i + 1 <= |T.lits| && M == Resolved(T, cls, conflict, i + 1) && FirstSingle(T, cls, conflict, M, i + 1);
  }

  lemma ProgressNext(T: Trail, cls: map<Cid, Clause>, conflict: Clause, M: set<Lit>, marked: seq<Lit>, cur: set<Lit>,
                     open: int, q: nat, i: nat)
    requires Progressing(T, cls, conflict, M, q) && Latest(T, M, q, i)
    requires Range(T, M, marked, cur, open) && T.lits[i] in cur && (open == 1 ==> T.dl == 0)
    requires HasReason(T.rsn, cls, T.lits[i])
    ensures Progressing(T, cls, conflict, M - {T.lits[i]} + Against(T, ReasonLits(T.rsn, cls, T.lits[i])), i)
  {
    hide Against, ReasonLits, Single;
    var t := T.lits[i];
    ResolvedSkip(T, cls, conflict, i + 1, q);
    assert Resolved(T, cls, conflict, i + 1) == M;
    assert Resolved(T, cls, conflict, i) == M - {t} + Against(T, ReasonLits(T.rsn, cls, t));
    if T.dl > 0 {
      Several(T, M, marked, cur, open, t);
      forall p | i < p <= |T.lits|
        ensures !Single(T, Resolved(T, cls, conflict, p))
      {
        if p <= q {
          assert Resolved(T, cls, conflict, p) == M;
        }
      }
    }
  }

  lemma Several(T: Trail, M: set<Lit>, marked: seq<Lit>, cur: set<Lit>, open: int, t: Lit)
    requires Range(T, M, marked, cur, open) && t in cur && open != 1
    ensures !Single(T, M)
  {
    assert |cur - {t}| == open - 1;
    var k := Pick(cur - {t});
    assert AtCurrent(T, k) && AtCurrent(T, t) && k in M && t in M;
  }

  /** A cut of the implication graph: no model makes all of D true, and only one literal of D has the current level. */
  ghost predicate IsCut(s: State, D: set<Lit>, uip: Option<Lit>) {
    && Refuted(s.F, D)
    && (forall l :: l in D ==> l in s.T.pos && l in s.T.lev)
    && (s.T.dl == 0 ==> uip.None? && D == {})
    && (s.T.dl > 0 ==> uip.Some? && uip.value in D && uip.value in s.T.lev && s.T.lev[uip.value] == s.T.dl)
    && (forall l :: l in D && l in s.T.lev && Some(l) != uip ==> s.T.lev[l] < s.T.dl)
  }

  lemma CutFound(s: State, M: set<Lit>, marked: seq<Lit>, cur: set<Lit>, q: nat, i: nat)
    requires Sound(s) && s.T.dl > 0
    requires Searched(s, M, marked, cur, 1, q) && Latest(s.T, M, q, i)
    ensures i < |s.T.lits| && IsCut(s, M, Some(s.T.lits[i]))
    ensures Range(s.T, M - {s.T.lits[i]}, marked, {}, 0)
  {
    hide TrailSound, Refuted, ReasonsOk, LockedBy, Consistent;
    var t := s.T.lits[i];
    LatestCurrent(s, M, marked, cur, 1, q, i);
    assert |cur - {t}| == 0;
    assert cur == {t};
  }

  lemma HasFirst(c: Clause)
    requires |c| > 0
    ensures c[0] in c
  {
  }

  lemma NothingFound(s: State, M: set<Lit>, marked: seq<Lit>, cur: set<Lit>, open: int, q: nat)
    requires Sound(s)
    requires Searched(s, M, marked, cur, open, q)
    requires forall j :: 0 <= j < q ==> s.T.lits[j] !in M
    ensures s.T.dl == 0 && M == {} && marked == [] && IsCut(s, {}, None) && Range(s.T, {}, [], {}, 0)
  {
    hide TrailSound, Refuted, ReasonsOk, LockedBy, Consistent, Decided;
    forall l
      ensures l !in cur
    {
      assert l in s.T.pos ==> s.T.lits[s.T.pos[l]] == l;
      assert l in cur ==> l in M;
    }
    assert cur == {};
    assert s.T.dl == 0;
    forall l
      ensures l !in marked
    {
      assert l in s.T.lev ==> s.T.lev[l] >= s.T.dl;
    }
    if |marked| > 0 {
      HasFirst(marked);
    }
    forall l
      ensures l !in M
    {
      assert l in M ==> l in marked || l in cur;
    }
    assert M == {};
  }

  lemma AgainstFalse(T: Trail, c: Clause)
    requires forall l :: l in c ==> -l in T.pos
    ensures Against(T, c) == Negations(c)
  {
    forall l | l in Negations(c)
      ensures l in Against(T, c)
    {
      var k :| k in c && l == -k;
      assert -l in c;
    }
    forall l | l in Against(T, c)
      ensures l in Negations(c)
    {
      assert -l in c && l == -(-l);
    }
  }

  lemma SearchStart(s: State, c: Clause)
    requires Sound(s) && Falsified(s.T, c) && Entails(s.F, c)
    ensures Searching(s, c, {}, [], {}, 0, |s.T.lits|)
  {
    hide Sound, Refuted, Entails, Against;
    AgainstFalse(s.T, c);
    SoundFacts(s);
    if s.T.dl > 0 {
      var k :| k in c && -k in s.T.lev && s.T.lev[-k] == s.T.dl;
      assert -k in Negations(c);
      assert -k in {} + Against(s.T, c);
    }
    assert 0 in c ==> -0 in s.T.pos;
    EntailsIffRefuted(s.F, c);
    assert {} + Against(s.T, c) == Negations(c);
  }

  lemma SoundFacts(s: State)
    requires Sound(s)
    ensures 0 !in s.T.pos
    ensures forall l :: l in s.T.pos ==> s.T.pos[l] < |s.T.lits|
    ensures s.T.lev.Keys == s.T.pos.Keys
  {
    assert 0 in s.T.pos ==> 1 <= Var(0);
  }

  lemma SearchingScans(s: State, c: Clause, M: set<Lit>, marked: seq<Lit>, cur: set<Lit>, open: int, q: nat)
    requires Sound(s) && Searching(s, c, M, marked, cur, open, q)
    ensures Indexed(s.T) && Layered(s.T)
    ensures forall l :: l in c ==> l in s.T.pos || -l in s.T.pos
    ensures forall l :: l in s.T.pos ==> -l !in s.T.pos && 1 <= Var(l) <= s.n
    ensures Range(s.T, M, marked, cur, open)
  {
    hide ClausesEntailed, TrailSound, ReasonsOk, LockedBy, TopUnits, Decided, Refuted;
  }

  lemma LatestHere(T: Trail, M: set<Lit>, q: nat, i: nat)
    requires i < q <= |T.lits| && T.lits[i] in M
    requires forall j :: i < j < q ==> T.lits[j] !in M
    ensures Latest(T, M, q, i)
  {
  }

  lemma TrailReasons(s: State, i: nat)
    requires Sound(s) && i < |s.T.lits|
    ensures var t := s.T.lits[i];
      t in s.T.rsn && (s.T.rsn[t].Antecedent? ==> s.T.rsn[t].c in s.D.cls)
  {
    hide ClausesEntailed, TrailSound, LockedBy, TopUnits, Decided, Refuted, IsReason;
    var t := s.T.lits[i];
    assert ReasonOk(s.T, s.D.cls, t);
  }

  lemma LatestIn(s: State, M: set<Lit>, marked: seq<Lit>, cur: set<Lit>, open: int, q: nat, i: nat)
    requires Sound(s) && Searched(s, M, marked, cur, open, q) && Latest(s.T, M, q, i)
    ensures s.T.lits[i] in cur && Range(s.T, M, marked, cur, open)
  {
    hide TrailSound, Refuted, ReasonsOk, LockedBy, TopUnits, ClausesEntailed, Decided, Consistent;
    LatestCurrent(s, M, marked, cur, open, q, i);
  }

  lemma ReasonKnown(rsn: map<Lit, Reason>, cls: map<Cid, Clause>, l: Lit)
    requires l in rsn && !rsn[l].Decision? && (rsn[l].Antecedent? ==> rsn[l].c in cls)
    ensures HasReason(rsn, cls, l)
  {
  }

  // ---------- what is met on the way ----------

  /** The literals that are left at q or further back on the trail. */
  ghost function SeenFrom(T: Trail, cls: map<Cid, Clause>, conflict: Clause, q: nat): set<Lit>
    decreases |T.lits| + 1 - q
  {
    if q > |T.lits| then {} else Resolved(T, cls, conflict, q) + SeenFrom(T, cls, conflict, q + 1)
  }

  /** l is left at some point, and before that more than one literal of the current level was. */
  ghost predicate Met(T: Trail, cls: map<Cid, Clause>, conflict: Clause, l: Lit) {
    exists p: nat :: p <= |T.lits| && l in Resolved(T, cls, conflict, p)
      && forall r :: p < r <= |T.lits| ==> !Single(T, Resolved(T, cls, conflict, r))
  }

  /** The variables above top level that are met. */
  ghost function MetVars(T: Trail, cls: map<Cid, Clause>, conflict: Clause): set<nat> {
    VarsAbove(T, set l | l in T.lev && Met(T, cls, conflict, l))
  }

  lemma {:induction false} SeenIs(T: Trail, cls: map<Cid, Clause>, conflict: Clause, q: nat, l: Lit)
    ensures l in SeenFrom(T, cls, conflict, q) <==>
      exists p: nat :: q <= p <= |T.lits| && l in Resolved(T, cls, conflict, p)
    decreases |T.lits| + 1 - q
  {
    hide Resolved;
    if q <= |T.lits| {
      SeenIs(T, cls, conflict, q + 1, l);
      assert l in Resolved(T, cls, conflict, q) ==>
        exists p: nat :: q <= p <= |T.lits| && l in Resolved(T, cls, conflict, p);
    }
  }

  lemma {:induction false} SeenSame(T: Trail, cls: map<Cid, Clause>, conflict: Clause, i: nat, q: nat)
    requires i <= q <= |T.lits|
    requires forall p :: i <= p <= q ==> Resolved(T, cls, conflict, p) == Resolved(T, cls, conflict, q)
    ensures SeenFrom(T, cls, conflict, i) == SeenFrom(T, cls, conflict, q)
    decreases q - i
  {
    hide Resolved;
    if i < q {
      SeenSame(T, cls, conflict, i + 1, q);
      assert Resolved(T, cls, conflict, q) <= SeenFrom(T, cls, conflict, q);
    }
  }

  /** Once a single literal of the current level is left, exactly what was seen is met. */
  lemma SeenIsMet(T: Trail, cls: map<Cid, Clause>, conflict: Clause, q: nat, l: Lit)
    requires q <= |T.lits| && Single(T, Resolved(T, cls, conflict, q))
    requires forall p :: q < p <= |T.lits| ==> !Single(T, Resolved(T, cls, conflict, p))
    ensures l in SeenFrom(T, cls, conflict, q) <==> Met(T, cls, conflict, l)
  {
    hide Resolved, Single;
    SeenIs(T, cls, conflict, q, l);
    if l in SeenFrom(T, cls, conflict, q) {
      var p: nat :| q <= p <= |T.lits| && l in Resolved(T, cls, conflict, p);
      assert Met(T, cls, conflict, l);
    }
    if Met(T, cls, conflict, l) {
      var p: nat :| p <= |T.lits| && l in Resolved(T, cls, conflict, p)
        && forall r :: p < r <= |T.lits| ==> !Single(T, Resolved(T, cls, conflict, r));
      assert p >= q;
      assert exists r: nat :: q <= r <= |T.lits| && l in Resolved(T, cls, conflict, r);
    }
  }

  lemma SeenMet(T: Trail, cls: map<Cid, Clause>, conflict: Clause, q: nat)
    requires T.lev.Keys == T.pos.Keys && q <= |T.lits| && Single(T, Resolved(T, cls, conflict, q))
    requires forall p :: q < p <= |T.lits| ==> !Single(T, Resolved(T, cls, conflict, p))
    requires forall l :: l in SeenFrom(T, cls, conflict, q) ==> l in T.pos
    ensures VarsAbove(T, SeenFrom(T, cls, conflict, q)) == MetVars(T, cls, conflict)
  {
    hide Resolved, Single, SeenFrom, Met;
    var seen := SeenFrom(T, cls, conflict, q);
    forall l
      ensures l in seen <==> Met(T, cls, conflict, l)
    {
      SeenIsMet(T, cls, conflict, q, l);
    }
    assert forall l :: l in seen ==> l in T.lev;
  }

  /** At top level nothing counts. */
  lemma TopMet(T: Trail, cls: map<Cid, Clause>, conflict: Clause, S: set<Lit>)
    requires T.dl == 0 && T.lev.Keys == T.pos.Keys && Layered(T)
    ensures VarsAbove(T, S) == {} == MetVars(T, cls, conflict)
  {
    hide Met;
  }

  /** When q is reached, seen is all that was left further back; what is not marked any more was resolved. */
  ghost predicate Seen(T: Trail, cls: map<Cid, Clause>, conflict: Clause, M: set<Lit>, q: nat, seen: set<Lit>) {
    && seen == SeenFrom(T, cls, conflict, q + 1)
    && M <= seen
    && forall l :: l in seen ==> l in T.pos && (l in M || (AtCurrent(T, l) && T.pos[l] >= q))
  }

  lemma SeenStart(T: Trail, cls: map<Cid, Clause>, conflict: Clause)
    ensures Seen(T, cls, conflict, {}, |T.lits|, {})
  {
  }

  /** What is scanned next was not seen before. */
  lemma SeenScan(s: State, conflict: Clause, c: Clause, M: set<Lit>, marked: seq<Lit>, cur: set<Lit>, open: int,
                 q: nat, seen: set<Lit>)
    requires Searching(s, c, M, marked, cur, open, q) && Seen(s.T, s.D.cls, conflict, M, q, seen)
    requires Progressing(s.T, s.D.cls, conflict, M + Against(s.T, c), q)
    ensures seen !! Against(s.T, c) - M
    ensures seen + (Against(s.T, c) - M) == SeenFrom(s.T, s.D.cls, conflict, q)
    ensures forall l :: l in SeenFrom(s.T, s.D.cls, conflict, q) ==> l in s.T.pos
    ensures forall l :: l in SeenFrom(s.T, s.D.cls, conflict, q) && l !in M + Against(s.T, c) ==>
      AtCurrent(s.T, l) && s.T.pos[l] >= q
  {
    hide Refuted, Resolved, Single;
  }

  lemma SeenNext(s: State, conflict: Clause, M: set<Lit>, marked: seq<Lit>, cur: set<Lit>, open: int, q: nat, i: nat)
    requires Sound(s) && Searched(s, M, marked, cur, open, q) && Latest(s.T, M, q, i)
    requires Progressing(s.T, s.D.cls, conflict, M, q)
    requires forall l :: l in SeenFrom(s.T, s.D.cls, conflict, q) ==>
      l in s.T.pos && (l in M || (AtCurrent(s.T, l) && s.T.pos[l] >= q))
    ensures Seen(s.T, s.D.cls, conflict, M - {s.T.lits[i]}, i, SeenFrom(s.T, s.D.cls, conflict, q))
  {
    hide TrailSound, Refuted, ReasonsOk, LockedBy, TopUnits, ClausesEntailed, Decided, Consistent, Resolved, Single;
    LatestCurrent(s, M, marked, cur, open, q, i);
    ResolvedSkip(s.T, s.D.cls, conflict, i + 1, q);
    SeenSame(s.T, s.D.cls, conflict, i + 1, q);
  }

  lemma SeenFound(s: State, conflict: Clause, M: set<Lit>, uip: Lit, q: nat)
    requires Progressing(s.T, s.D.cls, conflict, M, q) && s.T.dl > 0 && s.T.lev.Keys == s.T.pos.Keys
    requires IsFirstUip(s.T, s.D.cls, conflict, M, uip)
    requires forall l :: l in SeenFrom(s.T, s.D.cls, conflict, q) ==> l in s.T.pos
    ensures VarsAbove(s.T, SeenFrom(s.T, s.D.cls, conflict, q)) == MetVars(s.T, s.D.cls, conflict)
  {
    hide Resolved;
    SeenMet(s.T, s.D.cls, conflict, q);
  }

  /** The true literals seen from the current level back to its first unique implication point. */
  method FirstUip(trail: seq<Lit>, level: map<Lit, nat>, reason: map<Lit, Reason>, dl: nat, cls: map<Cid, Clause>,
                  conflict: Clause, heap: Heap.VarHeap, ghost s: State, ghost waiting: set<nat>)
    returns (uip: Option<Lit>, marks: set<Lit>, marked: seq<Lit>, minlevel: nat, siglevels: set<nat>)
    requires Sound(s)
    requires trail == s.T.lits && level == s.T.lev && reason == s.T.rsn && dl == s.T.dl && cls == s.D.cls
    requires Falsified(s.T, conflict) && Entails(s.F, conflict)
    requires heap.Holding(s.n, waiting)
    modifies heap
    ensures heap.Holding(s.n, waiting)
    ensures Heap.Bumps(old(heap.Scored()), heap.Scored(), MetVars(s.T, cls, conflict))
    ensures Range(s.T, marks, marked, {}, 0) && Signed(s.T, marked, minlevel, siglevels)
    ensures IsCut(s, marks + (if uip.Some? then {uip.value} else {}), uip)
    ensures uip.Some? ==> uip.value !in marks && IsFirstUip(s.T, cls, conflict, marks + {uip.value}, uip.value)
  {
    hide *;
    var q: nat := |trail|;
    var open := 0;
    var c := conflict;
    marks, marked, minlevel, siglevels, uip := {}, [], dl, {}, None;
    ghost var cur: set<Lit> := {};
    SearchStart(s, c);
    ProgressStart(s.T, cls, conflict);
    NothingSigned(s.T, minlevel, siglevels);
    SeenStart(s.T, cls, conflict);
    SoundFacts(s);
    NoVars(s.T);
    Heap.BumpsNothing(heap.Scored());
    ghost var seen: set<Lit> := {};
    while true
      invariant q <= |trail| && heap.Holding(s.n, waiting) && Signed(s.T, marked, minlevel, siglevels)
      invariant Seen(s.T, cls, conflict, marks, q, seen)
      invariant Heap.Bumps(old(heap.Scored()), heap.Scored(), VarsAbove(s.T, seen))
      invariant Searching(s, c, marks, marked, cur, open, q)
      invariant Progressing(s.T, cls, conflict, marks + Against(s.T, c), q)
      decreases q
    {
      ghost var M, S, C, o := marks, marked, cur, open;
      SearchingScans(s, c, marks, marked, cur, open, q);
      SeenScan(s, conflict, c, marks, marked, cur, open, q, seen);
      ghost var before := heap.Scored();
      marks, marked, open, minlevel, siglevels, cur :=
        Scan(level, dl, c, marks, marked, open, minlevel, siglevels, heap, s.T, cur, s.n, waiting);
      BumpMore(s.T, old(heap.Scored()), before, heap.Scored(), seen, Against(s.T, c) - M);
      seen := SeenFrom(s.T, cls, conflict, q);
      ScanDone(s, c, M, S, C, o, q, marks, marked, cur, open);
      ghost var q0 := q;
      while q > 0 && trail[q - 1] !in marks
        invariant 0 <= q <= q0
        invariant forall j :: q <= j < q0 ==> trail[j] !in marks
      {
        q := q - 1;
      }
      if q == 0 {
        NothingFound(s, marks, marked, cur, open, q0);
        assert marks + {} == {};
        TopMet(s.T, cls, conflict, seen);
        NothingSigned(s.T, minlevel, siglevels);
        return None, {}, [], minlevel, siglevels;
      }
      q := q - 1;
      var t := trail[q];
      LatestHere(s.T, marks, q0, q);
      TrailReasons(s, q);
      if reason[t].Decision? {
        DecisionLast(s, marks, marked, cur, open, q0, q);
      }
      if (open == 1 && dl > 0) || reason[t].Decision? {
        CutFound(s, marks, marked, cur, q0, q);
        LatestIn(s, marks, marked, cur, open, q0, q);
        ProgressFound(s.T, cls, conflict, marks, marked, cur, q0, q);
        SeenFound(s, conflict, marks, t, q0);
        assert marks - {t} + {t} == marks;
        return Some(t), marks - {t}, marked, minlevel, siglevels;
      }
      SeenNext(s, conflict, marks, marked, cur, open, q0, q);
      NextReason(s, marks, marked, cur, open, q0, q);
      LatestIn(s, marks, marked, cur, open, q0, q);
      ReasonKnown(reason, cls, t);
      ProgressNext(s.T, cls, conflict, marks, marked, cur, open, q0, q);
      marks, cur, open := marks - {t}, cur - {t}, open - 1;
      c := ReasonLits(reason, cls, t);
    }
  }
}
