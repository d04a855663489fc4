/** Minimization of a learned clause: literals that the others imply are resolved away. */
module Minimizing {
  import opened Cnf
  import opened Trails
  import opened Inference
  import opened Watches
  import opened Links
  import opened States
  import opened Analysis
  import Heap

  ghost predicate MarkedOk(T: Trail, marks: set<Lit>, marked: seq<Lit>) {
    && NoDup(marked)
    && (forall l :: l in marks <==> l in marked)
    && (forall l :: l in marked ==> l in T.pos && l in T.lev && T.lev[l] < T.dl)
  }

  /** t has a reason, and all other literals of the reason are marked. */
  ghost predicate Resolvable(T: Trail, cls: map<Cid, Clause>, M: set<Lit>, t: Lit) {
    && t in T.rsn && !T.rsn[t].Decision?
    && (T.rsn[t].Antecedent? ==> T.rsn[t].c in cls)
    && forall k :: k in ReasonLits(T.rsn, cls, t) && k != t ==> -k in M
  }

  // ---------- ways back through reasons ----------

  /** The negation of b occurs in the reason of a. */
  ghost predicate ComesFrom(T: Trail, cls: map<Cid, Clause>, a: Lit, b: Lit) {
    HasReason(T.rsn, cls, a) && -b in ReasonLits(T.rsn, cls, a) && -b != a
  }

  /** A way back through reasons to a decision that does not meet D once it has left its first literal. */
  ghost predicate Escape(T: Trail, cls: map<Cid, Clause>, D: set<Lit>, w: seq<Lit>) {
    && w != [] && IsDecision(T, w[|w| - 1])
    && forall i :: 1 <= i < |w| ==> w[i] !in D && ComesFrom(T, cls, w[i - 1], w[i])
  }

  /** l is a decision, or going back from it past D one reaches a decision. */
  ghost predicate Escapes(T: Trail, cls: map<Cid, Clause>, D: set<Lit>, l: Lit) {
    exists w :: Escape(T, cls, D, w) && w[0] == l
  }

  lemma DecisionEscapes(T: Trail, cls: map<Cid, Clause>, D: set<Lit>, l: Lit)
    requires IsDecision(T, l)
    ensures Escapes(T, cls, D, l)
  {
    assert Escape(T, cls, D, [l]);
  }

  lemma EscapesBack(T: Trail, cls: map<Cid, Clause>, D: set<Lit>, a: Lit, b: Lit)
    requires ComesFrom(T, cls, a, b) && b !in D && Escapes(T, cls, D, b)
    ensures Escapes(T, cls, D, a)
  {
    hide ComesFrom;
    var w :| Escape(T, cls, D, w) && w[0] == b;
    var v := [a] + w;
    forall i | 1 <= i < |v|
      ensures v[i] !in D && ComesFrom(T, cls, v[i - 1], v[i])
    {
      assert v[i] == w[i - 1];
      assert i > 1 ==> v[i - 1] == w[i - 2];
    }
    assert Escape(T, cls, D, v);
  }

  /** Going back from a literal of its level one stays on that level until D is reached. */
  lemma {:induction false} LevelInCut(s: State, D: set<Lit>, u: Lit)
    requires Sound(s) && u in s.T.pos && u in s.T.lev && s.T.lev[u] > 0 && !Escapes(s.T, s.D.cls, D, u)
    ensures exists d :: d in D && d in s.T.lev && s.T.lev[d] == s.T.lev[u]
    decreases s.T.pos[u]
  {
    hide Sound, Escapes, ComesFrom;
    if u !in D {
      var b := SameLevelReason(s, D, u);
      if b !in D {
        if Escapes(s.T, s.D.cls, D, b) {
          EscapesBack(s.T, s.D.cls, D, u, b);
        }
        LevelInCut(s, D, b);
      }
    }
  }

  lemma SameLevelReason(s: State, D: set<Lit>, u: Lit) returns (b: Lit)
    requires Sound(s) && u in s.T.pos && u in s.T.lev && s.T.lev[u] > 0 && !Escapes(s.T, s.D.cls, D, u)
    ensures ComesFrom(s.T, s.D.cls, u, b) && b in s.T.pos && b in s.T.lev && s.T.lev[b] == s.T.lev[u]
    ensures s.T.pos[b] < s.T.pos[u]
  {
    hide ClausesEntailed, TrailSound, LockedBy, TopUnits, Decided, Layered, Consistent, Escapes;
    if IsDecision(s.T, u) {
      DecisionEscapes(s.T, s.D.cls, D, u);
    }
    assert ReasonOk(s.T, s.D.cls, u);
    var R := ReasonLits(s.T.rsn, s.D.cls, u);
    assert IsReason(s.T, u, R);
    var k :| k in R && k != u && -k in s.T.lev && s.T.lev[-k] == s.T.lev[u];
    b := -k;
    assert -b == k;
  }

  /** What cannot escape has a level that the search does not rule out. */
  lemma NotRuledOut(s: State, D: set<Lit>, uip: Lit, marked: seq<Lit>, minlevel: nat, siglevels: set<nat>, u: Lit)
    requires Sound(s) && uip in s.T.lev && s.T.lev[uip] == s.T.dl && forall l :: l in D <==> l in marked || l == uip
    requires Signed(s.T, marked, minlevel, siglevels)
    requires u in s.T.lev && s.T.lev[u] < s.T.dl && !Escapes(s.T, s.D.cls, D, u)
    ensures !IsDecision(s.T, u)
    ensures s.T.lev[u] == 0 || (s.T.lev[u] >= minlevel && s.T.lev[u] % 32 in siglevels)
  {
    hide Sound, Escapes;
    if IsDecision(s.T, u) {
      DecisionEscapes(s.T, s.D.cls, D, u);
    }
    if s.T.lev[u] > 0 {
      SoundFacts(s);
      LevelInCut(s, D, u);
    }
  }

  // ---------- marking ----------

  ghost function Unmarked(T: Trail, marks: set<Lit>): nat {
    |T.pos.Keys - marks|
  }

  lemma MarkOne(T: Trail, marks: set<Lit>, marked: seq<Lit>, l: Lit)
    requires MarkedOk(T, marks, marked) && l !in marks && l in T.pos && l in T.lev && T.lev[l] < T.dl
    ensures MarkedOk(T, marks + {l}, marked + [l])
    ensures Unmarked(T, marks + {l}) < Unmarked(T, marks)
  {
    assert T.pos.Keys - (marks + {l}) == (T.pos.Keys - marks) - {l};
    assert l in T.pos.Keys - marks;
  }

  lemma UnmarkLast(T: Trail, marks: set<Lit>, marked: seq<Lit>)
    requires MarkedOk(T, marks, marked) && marked != []
    ensures MarkedOk(T, marks - {marked[|marked| - 1]}, marked[..|marked| - 1])
  {
    var t := marked[..|marked| - 1];
    assert marked == t + [marked[|marked| - 1]];
  }

  lemma SameMarks(T: Trail, M: set<Lit>, N: set<Lit>, marked: seq<Lit>)
    requires MarkedOk(T, M, marked) && MarkedOk(T, N, marked)
    ensures M == N
  {
    assert forall l :: l in M <==> l in N;
  }

  /** The literals of a reason for a literal below the current level lie below it too. */
  ghost predicate ReasonBelow(T: Trail, u: Lit, R: Clause) {
    forall k :: k in R ==> k == u || (k !in T.lev && -k in T.pos && -k in T.lev && T.lev[-k] < T.dl)
  }

  lemma BelowAt(T: Trail, u: Lit, R: Clause, k: Lit)
    requires ReasonBelow(T, u, R) && k in R
    ensures k == u || (k !in T.lev && -k in T.pos && -k in T.lev && T.lev[-k] < T.dl)
  {
    assert k == u || (k !in T.lev && -k in T.pos && -k in T.lev && T.lev[-k] < T.dl);
  }

  lemma BelowCurrent(s: State, u: Lit)
    requires Sound(s) && u in s.T.rsn && u in s.T.lev && s.T.lev[u] < s.T.dl && !s.T.rsn[u].Decision?
    ensures s.T.rsn[u].Antecedent? ==> s.T.rsn[u].c in s.D.cls
    ensures ReasonBelow(s.T, u, ReasonLits(s.T.rsn, s.D.cls, u))
  {
    hide ClausesEntailed, TrailSound, ReasonsOk, LockedBy, TopUnits, Decided;
    ReasonEntailed(s.F, s.T, s.D.cls, u);
    BelowReason(s.n, s.T, u, ReasonLits(s.T.rsn, s.D.cls, u));
  }

  lemma BelowReason(n: nat, T: Trail, u: Lit, R: Clause)
    requires T.lev.Keys == T.pos.Keys && Layered(T) && Consistent(n, T) && IsReason(T, u, R) && u in T.pos
    requires T.lev[u] < T.dl
    ensures ReasonBelow(T, u, R)
  {
    hide Layered, Consistent;
    forall k | k in R && k != u
      ensures k !in T.lev && -k in T.pos && -k in T.lev && T.lev[-k] < T.dl
    {
      EarlierLevel(n, T, -k, u);
    }
  }

  lemma EarlierLevel(n: nat, T: Trail, l: Lit, u: Lit)
    requires T.lev.Keys == T.pos.Keys && Layered(T) && Consistent(n, T)
    requires l in T.pos && u in T.pos && T.pos[l] <= T.pos[u]
    ensures -l !in T.pos && T.lev[l] <= T.lev[u]
  {
  }

  /** Marks the variables of a reason that are not marked yet, and pushes them for the search to visit. */
  method MarkReason(level: map<Lit, nat>, R: Clause, u: Lit, marks: set<Lit>, marked: seq<Lit>, dfs: seq<Lit>,
                    ghost T: Trail)
    returns (marks': set<Lit>, marked': seq<Lit>, dfs': seq<Lit>)
    requires level == T.lev && MarkedOk(T, marks, marked) && u in marks && u in level && ReasonBelow(T, u, R)
    ensures MarkedOk(T, marks', marked') && marks <= marks' && marked <= marked'
    ensures forall k :: k in R && k != u ==> -k in marks'
    ensures forall j :: |marked| <= j < |marked'| ==> marked'[j] in dfs'
    ensures dfs <= dfs' && forall l :: l in dfs' ==> l in dfs || (l in marks' && l !in marks && -l in R && -l != u)
    ensures Unmarked(T, marks') < Unmarked(T, marks) || (marks' == marks && dfs' == dfs)
  {
    hide MarkedOk, Unmarked, ReasonBelow;
    marks', marked', dfs' := marks, marked, dfs;
    var p := 0;
    while p < |R|
      invariant 0 <= p <= |R|
      invariant MarkedOk(T, marks', marked') && marks <= marks' && marked <= marked'
      invariant forall i :: 0 <= i < p && R[i] != u ==> -R[i] in marks'
      invariant forall j :: |marked| <= j < |marked'| ==> marked'[j] in dfs'
      invariant dfs <= dfs' && forall l :: l in dfs' ==> l in dfs || (l in marks' && l !in marks && -l in R && -l != u)
      invariant Unmarked(T, marks') < Unmarked(T, marks) || (marks' == marks && dfs' == dfs)
    {
      var k := R[p];
      assert k in R;
      BelowAt(T, u, R, k);
      var v := if k in level then k else -k;
      if v !in marks' {
        MarkOne(T, marks', marked', v);
        marks', marked', dfs' := marks' + {v}, marked' + [v], dfs' + [v];
      }
      p := p + 1;
    }
  }

  lemma ResolvableMono(T: Trail, cls: map<Cid, Clause>, M: set<Lit>, N: set<Lit>, t: Lit)
    requires Resolvable(T, cls, M, t) && M <= N
    ensures Resolvable(T, cls, N, t)
  {
  }

  /** Position orig starts the intermediate literals; those not on the stack have all of their reason marked. */
  ghost predicate Exploring(T: Trail, cls: map<Cid, Clause>, marks: set<Lit>, marked: seq<Lit>, dfs: seq<Lit>,
                            orig: nat) {
    forall j :: orig <= j < |marked| ==> marked[j] in dfs || Resolvable(T, cls, marks, marked[j])
  }

  lemma ExploreStep(T: Trail, cls: map<Cid, Clause>, marks: set<Lit>, marked: seq<Lit>, dfs: seq<Lit>, orig: nat,
                    u: Lit,
                    marks': set<Lit>, marked': seq<Lit>, dfs': seq<Lit>)
    requires Exploring(T, cls, marks, marked, dfs + [u], orig) && orig <= |marked|
    requires marks <= marks' && marked <= marked' && dfs <= dfs'
    requires forall j :: |marked| <= j < |marked'| ==> marked'[j] in dfs'
    requires Resolvable(T, cls, marks', u)
    ensures Exploring(T, cls, marks', marked', dfs', orig)
  {
    hide Resolvable;
    forall j | orig <= j < |marked'|
      ensures marked'[j] in dfs' || Resolvable(T, cls, marks', marked'[j])
    {
      if j < |marked| {
        assert marked'[j] == marked[j];
        if marked[j] in dfs {
          assert marked[j] in dfs';
        } else if marked[j] != u {
          ResolvableMono(T, cls, marks, marks', marked[j]);
        }
      }
    }
  }

  lemma ExploreStart(T: Trail, cls: map<Cid, Clause>, marks: set<Lit>, marked: seq<Lit>, start: Lit, orig: nat)
    requires Exploring(T, cls, marks, marked, [], orig)
    ensures Exploring(T, cls, marks, marked, [start], orig)
  {
    hide Resolvable;
  }

  lemma MarkedKnown(s: State, marks: set<Lit>, marked: seq<Lit>, u: Lit)
    requires Sound(s) && MarkedOk(s.T, marks, marked) && u in marks
    ensures u in s.T.rsn && u in s.T.lev && s.T.lev[u] < s.T.dl
  {
    hide ClausesEntailed, TrailSound, ReasonsOk, LockedBy, TopUnits, Decided, Layered, Consistent;
  }

  lemma NowResolvable(s: State, marks: set<Lit>, u: Lit)
    requires u in s.T.rsn && !s.T.rsn[u].Decision?
    requires s.T.rsn[u].Antecedent? ==> s.T.rsn[u].c in s.D.cls
    requires forall k :: k in ReasonLits(s.T.rsn, s.D.cls, u) && k != u ==> -k in marks
    ensures Resolvable(s.T, s.D.cls, marks, u)
  {
  }

  /** D is the cut that analysis found: the marked literals and the unique implication point. */
  ghost predicate CutMarks(s: State, D: set<Lit>, uip: Lit, found: seq<Lit>, marks: set<Lit>, minlevel: nat,
                           siglevels: set<nat>) {
    && uip in s.T.lev && s.T.lev[uip] == s.T.dl
    && (forall l :: l in D <==> l in found || l == uip) && (forall l :: l in found ==> l in marks)
    && Signed(s.T, found, minlevel, siglevels)
  }

  /** None of the literals on the stack escapes. */
  ghost predicate Confined(T: Trail, cls: map<Cid, Clause>, D: set<Lit>, dfs: seq<Lit>) {
    forall l :: l in dfs ==> !Escapes(T, cls, D, l)
  }

  lemma ConfinedStep(s: State, D: set<Lit>, uip: Lit, found: seq<Lit>, marks: set<Lit>, minlevel: nat,
                     siglevels: set<nat>, dfs: seq<Lit>, u: Lit, marks': set<Lit>, marked': seq<Lit>, dfs': seq<Lit>)
    requires CutMarks(s, D, uip, found, marks, minlevel, siglevels) && Confined(s.T, s.D.cls, D, dfs + [u])
    requires HasReason(s.T.rsn, s.D.cls, u) && MarkedOk(s.T, marks', marked')
    requires forall l :: l in dfs' ==>
      l in dfs || (l in marks' && l !in marks && -l in ReasonLits(s.T.rsn, s.D.cls, u) && -l != u)
    ensures Confined(s.T, s.D.cls, D, dfs')
  {
    hide Escapes, Signed;
    assert u in dfs + [u];
    forall l | l in dfs'
      ensures !Escapes(s.T, s.D.cls, D, l)
    {
      if l in dfs {
        assert l in dfs + [u];
      } else if Escapes(s.T, s.D.cls, D, l) {
        assert l in marked' && l != uip && ComesFrom(s.T, s.D.cls, u, l);
        EscapesBack(s.T, s.D.cls, D, u, l);
      }
    }
  }

  lemma ConfinedOpen(s: State, D: set<Lit>, uip: Lit, found: seq<Lit>, marks: set<Lit>, minlevel: nat,
                     siglevels: set<nat>, dfs: seq<Lit>, u: Lit)
    requires Sound(s) && CutMarks(s, D, uip, found, marks, minlevel, siglevels)
    requires Confined(s.T, s.D.cls, D, dfs + [u]) && u in s.T.rsn && u in s.T.lev && s.T.lev[u] < s.T.dl
    ensures !s.T.rsn[u].Decision?
    ensures s.T.lev[u] == 0 || (s.T.lev[u] >= minlevel && s.T.lev[u] % 32 in siglevels)
  {
    hide Sound, Escapes, Signed;
    assert u in dfs + [u];
    NotRuledOut(s, D, uip, found, minlevel, siglevels, u);
  }

  lemma ConfinedStart(T: Trail, cls: map<Cid, Clause>, D: set<Lit>, start: Lit)
    requires !Escapes(T, cls, D, start)
    ensures Confined(T, cls, D, [start])
  {
  }

  lemma CutMarksMore(s: State, D: set<Lit>, uip: Lit, found: seq<Lit>, marks: set<Lit>, minlevel: nat,
                     siglevels: set<nat>, marks': set<Lit>)
    requires CutMarks(s, D, uip, found, marks, minlevel, siglevels) && marks <= marks'
    ensures CutMarks(s, D, uip, found, marks', minlevel, siglevels)
  {
    hide Signed;
  }

  /** Depth-first search from start through the implication graph. It either marks everything start depends on,
      or meets a literal that rules this out and takes back what it marked, which happens only if start escapes. */
  method Explore(level: map<Lit, nat>, reason: map<Lit, Reason>, cls: map<Cid, Clause>, start: Lit, marks: set<Lit>,
                 marked: seq<Lit>, minlevel: nat, siglevels: set<nat>, ghost orig: nat, ghost s: State,
                 ghost D: set<Lit>, ghost uip: Lit, ghost found: seq<Lit>)
    returns (marks': set<Lit>, marked': seq<Lit>)
    requires Sound(s) && level == s.T.lev && reason == s.T.rsn && cls == s.D.cls
    requires MarkedOk(s.T, marks, marked) && start in marks && orig <= |marked|
    requires Exploring(s.T, cls, marks, marked, [], orig)
    requires CutMarks(s, D, uip, found, marks, minlevel, siglevels)
    ensures MarkedOk(s.T, marks', marked') && marked <= marked' && marks <= marks'
    ensures Exploring(s.T, cls, marks', marked', [], orig)
    ensures Escapes(s.T, cls, D, start) || Resolvable(s.T, cls, marks', start)
  {
    hide *;
    marks', marked' := marks, marked;
    var dfs := [start];
    ExploreStart(s.T, cls, marks, marked, start, orig);
    ghost var confined := !Escapes(s.T, cls, D, start);
    if confined {
      ConfinedStart(s.T, cls, D, start);
    }
    while dfs != []
      invariant MarkedOk(s.T, marks', marked') && marked <= marked' && marks <= marks'
      invariant Exploring(s.T, cls, marks', marked', dfs, orig)
      invariant forall l :: l in dfs ==> l in marks'
      invariant confined ==> Confined(s.T, cls, D, dfs)
      invariant start in dfs || Resolvable(s.T, cls, marks', start)
      decreases Unmarked(s.T, marks'), |dfs|
    {
      var u := dfs[|dfs| - 1];
      ghost var stack := dfs;
      dfs := dfs[..|dfs| - 1];
      assert stack == dfs + [u] && u in stack;
      MarkedKnown(s, marks', marked', u);
      CutMarksMore(s, D, uip, found, marks, minlevel, siglevels, marks');
      if confined {
        ConfinedOpen(s, D, uip, found, marks', minlevel, siglevels, dfs, u);
      }
      if reason[u].Decision? || (level[u] > 0 && (level[u] < minlevel || level[u] % 32 !in siglevels)) {
        while |marked'| > |marked|
          invariant MarkedOk(s.T, marks', marked') && marked <= marked'
          decreases |marked'|
        {
          UnmarkLast(s.T, marks', marked');
          marks', marked' := marks' - {marked'[|marked'| - 1]}, marked'[..|marked'| - 1];
        }
        assert marked' == marked;
        SameMarks(s.T, marks, marks', marked);
        return;
      }
      BelowCurrent(s, u);
      ghost var M, S, rest := marks', marked', dfs;
      marks', marked', dfs := MarkReason(level, ReasonLits(reason, cls, u), u, marks', marked', dfs, s.T);
      NowResolvable(s, marks', u);
      ExploreStep(s.T, cls, M, S, rest, orig, u, marks', marked', dfs);
      ReasonKnown(reason, cls, u);
      if confined {
        ConfinedStep(s, D, uip, found, M, minlevel, siglevels, rest, u, marks', marked', dfs);
      }
      if start !in stack {
        ResolvableMono(s.T, cls, M, marks', start);
      }
    }
  }

  /** Every literal of marked escapes or has all of its reason marked. */
  ghost predicate Explored(T: Trail, cls: map<Cid, Clause>, D: set<Lit>, marks: set<Lit>, marked: seq<Lit>) {
    forall i :: 0 <= i < |marked| ==> Escapes(T, cls, D, marked[i]) || Resolvable(T, cls, marks, marked[i])
  }

  lemma ExploredOne(T: Trail, cls: map<Cid, Clause>, D: set<Lit>, marks: set<Lit>, marked: seq<Lit>, marks': set<Lit>,
                    l: Lit)
    requires Explored(T, cls, D, marks, marked) && marks <= marks'
    requires Escapes(T, cls, D, l) || Resolvable(T, cls, marks', l)
    ensures Explored(T, cls, D, marks', marked + [l])
  {
    hide Escapes, Resolvable;
    forall i | 0 <= i < |marked|
      ensures Escapes(T, cls, D, marked[i]) || Resolvable(T, cls, marks', marked[i])
    {
      if !Escapes(T, cls, D, marked[i]) {
        ResolvableMono(T, cls, marks, marks', marked[i]);
      }
    }
  }

  lemma ExploredNone(T: Trail, cls: map<Cid, Clause>, D: set<Lit>, marks: set<Lit>)
    ensures Explored(T, cls, D, marks, [])
  {
  }

  /** Runs the search from every marked literal that was not decided. */
  method MarkRedundant(level: map<Lit, nat>, reason: map<Lit, Reason>, cls: map<Cid, Clause>,
                       marks: set<Lit>, marked: seq<Lit>, minlevel: nat, siglevels: set<nat>, ghost s: State,
                       ghost D: set<Lit>, ghost uip: Lit)
    returns (marks': set<Lit>, marked': seq<Lit>)
    requires Sound(s) && level == s.T.lev && reason == s.T.rsn && cls == s.D.cls
    requires MarkedOk(s.T, marks, marked) && CutMarks(s, D, uip, marked, marks, minlevel, siglevels)
    ensures MarkedOk(s.T, marks', marked') && marked <= marked'
    ensures Exploring(s.T, cls, marks', marked', [], |marked|)
    ensures Explored(s.T, cls, D, marks', marked)
  {
    hide *;
    marks', marked' := marks, marked;
    var orig := |marked|;
    NothingExplored(s.T, cls, marks, marked);
    ExploredNone(s.T, cls, D, marks);
    assert marked[..0] == [];
    for i := 0 to orig
      invariant MarkedOk(s.T, marks', marked') && marked <= marked' && marks <= marks'
      invariant Exploring(s.T, cls, marks', marked', [], orig)
      invariant Explored(s.T, cls, D, marks', marked[..i])
    {
      var start := marked'[i];
      StillMarked(s.T, marks', marked', i);
      MarkedKnown(s, marks', marked', start);
      ghost var M := marks';
      if reason[start].Decision? {
        StartEscapes(s.T, cls, D, start);
      } else {
        CutMarksMore(s, D, uip, marked, marks, minlevel, siglevels, marks');
        marks', marked' :=
          Explore(level, reason, cls, start, marks', marked', minlevel, siglevels, orig, s, D, uip, marked);
      }
      ExploredOne(s.T, cls, D, M, marked[..i], marks', start);
      assert marked[..i + 1] == marked[..i] + [start];
    }
    assert marked[..orig] == marked;
  }

  lemma StartEscapes(T: Trail, cls: map<Cid, Clause>, D: set<Lit>, start: Lit)
    requires start in T.rsn && T.rsn[start].Decision?
    ensures Escapes(T, cls, D, start)
  {
    DecisionEscapes(T, cls, D, start);
  }

  lemma NothingExplored(T: Trail, cls: map<Cid, Clause>, marks: set<Lit>, marked: seq<Lit>)
    ensures Exploring(T, cls, marks, marked, [], |marked|)
  {
  }

  lemma StillMarked(T: Trail, marks: set<Lit>, marked: seq<Lit>, i: nat)
    requires MarkedOk(T, marks, marked) && i < |marked|
    ensures marked[i] in marks
  {
    var l := marked[i];
    assert l in marked && l in marks;
  }

  // ---------- resolving redundant literals away ----------

  /** v has a reason whose other literals are all marked or false at top level. */
  ghost predicate Redundant(T: Trail, cls: map<Cid, Clause>, M: set<Lit>, v: Lit) {
    && v in T.rsn && !T.rsn[v].Decision?
    && (T.rsn[v].Antecedent? ==> T.rsn[v].c in cls)
    && forall k :: k in ReasonLits(T.rsn, cls, v) && k != v ==> -k in M || (-k in T.lev && T.lev[-k] == 0)
  }

  method IsRedundant(level: map<Lit, nat>, reason: map<Lit, Reason>, cls: map<Cid, Clause>, marks: set<Lit>, v: Lit,
                     ghost s: State)
    returns (r: bool)
    requires Sound(s) && level == s.T.lev && reason == s.T.rsn && cls == s.D.cls
    requires v in marks && v in level && v in reason && level[v] < s.T.dl
    ensures r <==> Redundant(s.T, cls, marks, v)
  {
    hide Sound, ReasonBelow;
    if reason[v].Decision? {
      return false;
    }
    BelowCurrent(s, v);
    var R := ReasonLits(reason, cls, v);
    assert ReasonBelow(s.T, v, R);
    hide ReasonLits;
    for p := 0 to |R|
      invariant forall i :: 0 <= i < p && R[i] != v ==> -R[i] in marks || (-R[i] in s.T.lev && s.T.lev[-R[i]] == 0)
    {
      var k := R[p];
      assert k in R;
      var u := if k in level then k else -k;
      BelowAt(s.T, v, R, k);
      if level[u] > 0 && u !in marks {
        return false;
      }
    }
    return true;
  }

  /** Redundant literals may be left out of a cut. */
  lemma MinimizedCut(s: State, D: set<Lit>, uip: Lit, M: set<Lit>, kept: set<Lit>)
    requires Sound(s) && IsCut(s, D, Some(uip)) && D <= M + {uip} && kept <= M
    requires forall l :: l in M ==> l in s.T.pos
    requires forall l :: l in M && l !in kept ==> Redundant(s.T, s.D.cls, M, l)
    ensures Refuted(s.F, kept + {uip})
  {
    hide Sound, Refuted, ReasonLits;
    var N := M + {uip};
    assert Refuted(s.F, N) by { RefutedMore(s.F, D, N); }
    CutLevel(s, D, uip);
    forall l | l in N
      ensures l in s.T.pos && (l in kept + {uip} || Supported(s.T, s.D.cls, N, l))
    {
      if l !in kept + {uip} {
        assert Redundant(s.T, s.D.cls, M, l);
      }
    }
    assert Closed(s.T, s.D.cls, N, kept + {uip});
    SoundBase(s);
    ClosedRefutes(s.F, s.T, s.D.cls, N, kept + {uip});
  }

  lemma CutLevel(s: State, D: set<Lit>, uip: Lit)
    requires Sound(s) && IsCut(s, D, Some(uip))
    ensures uip in s.T.pos && s.T.lev.Keys == s.T.pos.Keys
  {
    hide ClausesEntailed, TrailSound, ReasonsOk, LockedBy, TopUnits, Decided, Layered, Consistent, Refuted;
  }

  lemma SoundBase(s: State)
    requires Sound(s)
    ensures Indexed(s.T) && ReasonsOk(s.T, s.D.cls) && TrailSound(s.F, s.T) && ClausesEntailed(s.F, s.D.cls)
    ensures forall k :: k in s.T.pos ==> k != 0
  {
    hide ClausesEntailed, TrailSound, ReasonsOk, LockedBy, TopUnits, Decided, Layered, Indexed;
    assert 0 in s.T.pos ==> 1 <= Var(0);
  }

  // ---------- the learned clause ----------

  /** added is entailed and false; above top level its first literal is the only one of the current level. */
  ghost predicate Learned(s: State, added: Clause) {
    && Entails(s.F, added)
    && ClauseOk(s.n, added)
    && (forall l :: l in added ==> -l in s.T.pos && -l in s.T.lev)
    && (s.T.dl == 0 ==> added == [])
    && (s.T.dl > 0 ==> |added| >= 1 && -added[0] in s.T.lev && s.T.lev[-added[0]] == s.T.dl)
    && (forall i :: 1 <= i < |added| && -added[i] in s.T.lev ==> 0 < s.T.lev[-added[i]] < s.T.dl)
  }

  /** The clause that says not all literals of u and kept are true together. */
  function Negated(u: Lit, kept: seq<Lit>): Clause {
    [-u] + seq(|kept|, i requires 0 <= i < |kept| => -kept[i])
  }

  lemma NegatedLits(u: Lit, kept: seq<Lit>)
    ensures Negations(Negated(u, kept)) == (set l | l in kept) + {u}
    ensures forall l :: l in Negated(u, kept) <==> -l in kept || l == -u
  {
    var c := Negated(u, kept);
    forall l
      ensures l in c <==> -l in kept || l == -u
    {
      if l in c {
        var i :| 0 <= i < |c| && c[i] == l;
        assert i > 0 ==> kept[i - 1] == -l;
      }
      if -l in kept {
        var i :| 0 <= i < |kept| && kept[i] == -l;
        assert c[i + 1] == l;
      }
      assert c[0] == -u;
    }
    forall l | l in (set k | k in kept) + {u}
      ensures l in Negations(c)
    {
      assert -l in c && -(-l) == l;
    }
    forall l | l in Negations(c)
      ensures l in (set k | k in kept) + {u}
    {
      var k :| k in c && l == -k;
    }
  }

  /** Below: the kept literals are distinct, true, and below the current level. */
  lemma LearnedOk(s: State, uip: Lit, kept: seq<Lit>, M: set<Lit>, marked: seq<Lit>)
    requires Sound(s) && s.T.dl > 0
    requires MarkedOk(s.T, M, marked) && NoDup(kept) && forall l :: l in kept ==> l in M
    requires uip in s.T.pos && s.T.lev[uip] == s.T.dl
    requires forall l :: l in kept && l in s.T.lev ==> s.T.lev[l] > 0
    requires Refuted(s.F, (set l | l in kept) + {uip})
    ensures Learned(s, Negated(uip, kept))
  {
    hide Sound, Refuted, Entails, Negated;
    var c := Negated(uip, kept);
    NegatedLits(uip, kept);
    SoundFacts(s);
    EntailsIffRefuted(s.F, c);
    NegatedOk(s, uip, kept);
    assert |c| == |kept| + 1 && c[0] == -uip && forall i :: 1 <= i < |c| ==> c[i] == -kept[i - 1] by {
      NegatedShape(uip, kept);
    }
    forall i | 1 <= i < |c| && -c[i] in s.T.lev
      ensures 0 < s.T.lev[-c[i]] < s.T.dl
    {
      var k := kept[i - 1];
      assert k in kept && -c[i] == k;
    }
  }

  lemma NegatedShape(u: Lit, kept: seq<Lit>)
    ensures var c := Negated(u, kept);
      |c| == |kept| + 1 && c[0] == -u && forall i :: 1 <= i < |c| ==> c[i] == -kept[i - 1]
  {
  }

  lemma NegatedOk(s: State, u: Lit, kept: seq<Lit>)
    requires Sound(s) && NoDup(kept) && u in s.T.pos && u !in kept
    requires forall l :: l in kept ==> l in s.T.pos
    ensures ClauseOk(s.n, Negated(u, kept))
  {
    hide Indexed, Layered, Decided, ReasonsOk, TrailSound, TopUnits, LockedBy, ClausesEntailed, Negated;
    var c := Negated(u, kept);
    NegatedShape(u, kept);
    NegatedLits(u, kept);
    forall i, j | 0 <= i < j < |c|
      ensures c[i] != c[j]
    {
      assert kept[j - 1] in kept;
    }
  }

  lemma TopConflict(s: State, D: set<Lit>, conflict: Clause)
    requires Sound(s) && IsCut(s, D, None)
    ensures Learned(s, []) && Analyzed(s, conflict, [])
  {
    hide Sound;
    EntailsIffRefuted(s.F, []);
    assert Negations([]) == D;
  }

  lemma RangeMarked(T: Trail, M: set<Lit>, marked: seq<Lit>)
    requires Range(T, M, marked, {}, 0)
    ensures MarkedOk(T, M, marked)
  {
  }

  /** Top-level facts never stay in a learned clause. */
  lemma TopRedundant(s: State, M: set<Lit>, l: Lit)
    requires Sound(s) && l in s.T.lev
    ensures s.T.lev[l] == 0 ==> Redundant(s.T, s.D.cls, M, l)
  {
    hide TrailOk, TrailSound, ReasonsOk, LockedBy, ClausesEntailed;
  }

  /** added contains the negations of uip and of the literals of D that are not redundant with respect to seen, which
      extends D by redundant literals only. */
  ghost predicate Trimming(T: Trail, cls: map<Cid, Clause>, D: set<Lit>, uip: Lit, seen: set<Lit>, added: Clause) {
    && D <= seen + {uip} && Negations(added) <= D && -uip in added
    && (forall l :: l in seen && l !in D ==> Redundant(T, cls, seen, l))
    && (forall l :: l in D && l != uip ==> (-l in added <==> !Redundant(T, cls, seen, l)))
  }

  /** added contains the negations of uip and of exactly those other literals of D from which, going back through
      reasons past the literals of D, a decision is reached. */
  ghost predicate Shortened(T: Trail, cls: map<Cid, Clause>, D: set<Lit>, uip: Lit, added: Clause) {
    && Negations(added) <= D && -uip in added
    && (forall l :: l in D && l != uip ==> (-l in added <==> Escapes(T, cls, D, l)))
  }

  /** No way back from a redundant literal ends at a decision. */
  lemma {:induction false} RedundantWay(s: State, D: set<Lit>, seen: set<Lit>, w: seq<Lit>, i: nat)
    requires Sound(s) && Escape(s.T, s.D.cls, D, w) && i < |w| && Redundant(s.T, s.D.cls, seen, w[0])
    requires forall l :: l in seen && l !in D ==> Redundant(s.T, s.D.cls, seen, l)
    ensures Redundant(s.T, s.D.cls, seen, w[i])
  {
    hide Sound;
    if i > 0 {
      RedundantWay(s, D, seen, w, i - 1);
      assert ComesFrom(s.T, s.D.cls, w[i - 1], w[i]) && -(-w[i]) == w[i];
      if w[i] in s.T.lev {
        TopRedundant(s, seen, w[i]);
      }
    }
  }

  lemma ShortenedIs(s: State, D: set<Lit>, uip: Lit, found: seq<Lit>, seen: set<Lit>, added: Clause)
    requires Sound(s) && Trimming(s.T, s.D.cls, D, uip, seen, added) && Explored(s.T, s.D.cls, D, seen, found)
    requires forall l :: l in D && l != uip ==> l in found
    ensures Shortened(s.T, s.D.cls, D, uip, added)
  {
    hide Sound, Redundant, Resolvable, ComesFrom, IsDecision;
    forall l | l in D && l != uip
      ensures Redundant(s.T, s.D.cls, seen, l) <==> !Escapes(s.T, s.D.cls, D, l)
    {
      if Redundant(s.T, s.D.cls, seen, l) && Escapes(s.T, s.D.cls, D, l) {
        var w :| Escape(s.T, s.D.cls, D, w) && w[0] == l;
        WayEnds(s, D, seen, w);
      }
      if Resolvable(s.T, s.D.cls, seen, l) {
        ResolvableRedundant(s.T, s.D.cls, seen, l);
      }
    }
  }

  lemma WayEnds(s: State, D: set<Lit>, seen: set<Lit>, w: seq<Lit>)
    requires Sound(s) && Escape(s.T, s.D.cls, D, w)
    requires forall l :: l in seen && l !in D ==> Redundant(s.T, s.D.cls, seen, l)
    ensures !Redundant(s.T, s.D.cls, seen, w[0])
  {
    hide Sound;
    if Redundant(s.T, s.D.cls, seen, w[0]) {
      RedundantWay(s, D, seen, w, |w| - 1);
    }
  }

  lemma Minimized(s: State, M: set<Lit>, S: seq<Lit>, uip: Lit, marks: set<Lit>, marked: seq<Lit>, resolved: set<Lit>,
                  kept: seq<Lit>)
    requires Sound(s) && MarkedOk(s.T, M, S) && MarkedOk(s.T, marks, marked) && S <= marked
    requires IsCut(s, M + {uip}, Some(uip))
    requires Exploring(s.T, s.D.cls, marks, marked, [], |S|)
    requires forall l :: l in resolved <==> l in marked && Redundant(s.T, s.D.cls, marks, l)
    requires kept == Without(marked, resolved)
    ensures Learned(s, Negated(uip, kept))
    ensures Trimming(s.T, s.D.cls, M + {uip}, uip, marks, Negated(uip, kept))
  {
    hide Sound, Refuted, Negated, Without, Redundant, Resolvable;
    WithoutElems(marked, resolved);
    var K := set l | l in kept;
    CutLevel(s, M + {uip}, uip);
    MinimizedCut(s, M + {uip}, uip, marks, K) by {
      forall l | l in M
        ensures l in marks
      {
        assert l in S;
      }
      assert K <= marks by {
        forall l | l in K
          ensures l in marks
        {
          assert l in kept && l in marked;
        }
      }
    }
    forall l | l in kept && l in s.T.lev
      ensures s.T.lev[l] > 0
    {
      TopRedundant(s, marks, l);
    }
    LearnedOk(s, uip, kept, marks, marked);
    NegatedLits(uip, kept);
    forall l | l in kept
      ensures l in M
    {
      var j :| 0 <= j < |marked| && marked[j] == l;
      if j >= |S| {
        assert Resolvable(s.T, s.D.cls, marks, marked[j]);
        ResolvableRedundant(s.T, s.D.cls, marks, l);
        assert false;
      }
      assert l == S[j];
    }
    TrimmingIs(s, M, S, uip, marks, marked, resolved, kept);
  }

  lemma TrimmingIs(s: State, M: set<Lit>, S: seq<Lit>, uip: Lit, marks: set<Lit>, marked: seq<Lit>,
                   resolved: set<Lit>, kept: seq<Lit>)
    requires MarkedOk(s.T, M, S) && MarkedOk(s.T, marks, marked) && S <= marked
    requires Exploring(s.T, s.D.cls, marks, marked, [], |S|)
    requires forall l :: l in resolved <==> l in marked && Redundant(s.T, s.D.cls, marks, l)
    requires forall l :: l in kept <==> l in marked && l !in resolved
    requires forall l :: l in kept ==> l in M
    ensures Trimming(s.T, s.D.cls, M + {uip}, uip, marks, Negated(uip, kept))
  {
    hide Negated, Redundant, Resolvable;
    NegatedLits(uip, kept);
    forall l | l in M
      ensures l in marks
    {
      assert l in S;
    }
    forall l | l in marks && l !in M
      ensures Redundant(s.T, s.D.cls, marks, l)
    {
      var j :| 0 <= j < |marked| && marked[j] == l;
      if j >= |S| {
        ResolvableRedundant(s.T, s.D.cls, marks, marked[j]);
      } else {
        assert l == S[j];
      }
    }
    forall l | l in M && l != uip
      ensures -l in Negated(uip, kept) <==> !Redundant(s.T, s.D.cls, marks, l)
    {
      assert -(-l) == l;
    }
  }

  lemma ResolvableRedundant(T: Trail, cls: map<Cid, Clause>, M: set<Lit>, l: Lit)
    requires Resolvable(T, cls, M, l)
    ensures Redundant(T, cls, M, l)
  {
  }

  /** added is the first-UIP clause without its redundant literals; at top level it is empty. */
  ghost predicate Analyzed(s: State, conflict: Clause, added: Clause) {
    if s.T.dl == 0 then added == []
    else
      exists D, uip :: IsFirstUip(s.T, s.D.cls, conflict, D, uip) && Shortened(s.T, s.D.cls, D, uip, added)
  }

  /** Analyzes a conflict. The clause is entailed, false, has one literal of the current level,
      and is the first-UIP clause without its redundant literals. */
  method Analyze(trail: seq<Lit>, level: map<Lit, nat>, reason: map<Lit, Reason>, dl: nat, cls: map<Cid, Clause>,
                 conflict: Clause, heap: Heap.VarHeap, ghost s: State, ghost waiting: set<nat>)
    returns (added: Clause)
    requires Sound(s)
    requires trail == s.T.lits && level == s.T.lev && reason == s.T.rsn && dl == s.T.dl && cls == s.D.cls
    requires Falsified(s.T, conflict) && Entails(s.F, conflict)
    requires heap.Holding(s.n, waiting)
    modifies heap
    ensures heap.Holding(s.n, waiting)
    ensures Heap.Bumps(old(heap.Scored()), heap.Scored(), MetVars(s.T, cls, conflict))
    ensures Learned(s, added) && Analyzed(s, conflict, added)
  {
    hide *;
    var uip, marks, marked, minlevel, siglevels := FirstUip(trail, level, reason, dl, cls, conflict, heap, s, waiting);
    if uip.None? {
      TopConflict(s, marks + {}, conflict);
      return [];
    }
    CutAbove(s, marks + {uip.value}, uip.value);
    RangeMarked(s.T, marks, marked);
    ghost var M, S, D := marks, marked, marks + {uip.value};
    CutFoundMarks(s, M, S, uip.value, minlevel, siglevels);
    marks, marked := MarkRedundant(level, reason, cls, marks, marked, minlevel, siglevels, s, D, uip.value);
    var resolved: set<Lit> := {};
    for m := 0 to |marked|
      invariant forall l :: l in resolved <==> l in marked[..m] && Redundant(s.T, cls, marks, l)
      modifies {}
    {
      var v := marked[m];
      StillMarked(s.T, marks, marked, m);
      MarkedKnown(s, marks, marked, v);
      var r := IsRedundant(level, reason, cls, marks, v, s);
      if r {
        resolved := resolved + {v};
      }
      assert marked[..m + 1] == marked[..m] + [v];
    }
    assert marked[..|marked|] == marked;
    var kept: seq<Lit> := [];
    WithoutNone(resolved);
    assert marked[..0] == [];
    for m := 0 to |marked|
      invariant kept == Without(marked[..m], resolved)
      modifies {}
    {
      var v := marked[m];
      WithoutStep(marked[..m], v, resolved);
      assert marked[..m + 1] == marked[..m] + [v];
      if v !in resolved {
        kept := kept + [v];
      }
    }
    added := Negated(uip.value, kept);
    Minimized(s, M, S, uip.value, marks, marked, resolved, kept);
    ShortenedIs(s, D, uip.value, S, marks, added);
    AnalyzedIs(s, conflict, D, uip.value, added);
  }

  lemma CutFoundMarks(s: State, M: set<Lit>, S: seq<Lit>, uip: Lit, minlevel: nat, siglevels: set<nat>)
    requires MarkedOk(s.T, M, S) && IsCut(s, M + {uip}, Some(uip)) && Signed(s.T, S, minlevel, siglevels)
    ensures CutMarks(s, M + {uip}, uip, S, M, minlevel, siglevels)
    ensures forall l :: l in M + {uip} && l != uip ==> l in S
  {
    hide Refuted, Signed;
  }

  lemma CutAbove(s: State, D: set<Lit>, uip: Lit)
    requires IsCut(s, D, Some(uip))
    ensures s.T.dl > 0
  {
    hide Refuted;
  }

  lemma AnalyzedIs(s: State, conflict: Clause, D: set<Lit>, uip: Lit, added: Clause)
    requires s.T.dl > 0 && IsFirstUip(s.T, s.D.cls, conflict, D, uip) && Shortened(s.T, s.D.cls, D, uip, added)
    ensures Analyzed(s, conflict, added)
  {
    hide IsFirstUip, Shortened;
  }

  /** The level to go back to: the highest level below the current one in the learned clause. */
  method Drive(level: map<Lit, nat>, dl: nat, added: Clause) returns (res: nat)
    requires forall l :: l in added ==> -l in level
    ensures forall l :: l in added ==> level[-l] >= dl || level[-l] <= res
    ensures res == 0 || exists l :: l in added && level[-l] == res < dl
  {
    res := 0;
    for p := 0 to |added|
      invariant forall i :: 0 <= i < p && -added[i] in level ==> level[-added[i]] >= dl || level[-added[i]] <= res
      invariant res == 0 || exists l :: l in added && -l in level && level[-l] == res < dl
    {
      var l := added[p];
      assert l in added;
      var vlevel := level[-l];
      if vlevel < dl && vlevel > res {
        res := vlevel;
      }
    }
  }
}
