/** The partial assignment read off a model: of every saved original clause one true literal is marked, greedily the
    one that occurs most often in the clauses not yet looked at. */
module Autarky {
  import opened Cnf
  import opened Trails

  // ---------- the saved clauses ----------

  /** The clauses on the stack of saved literals; each is ended by a zero. */
  function Ended(so: seq<int>): seq<Clause> {
    if so == [] then []
    else
      var s := so[..|so| - 1];
      if so[|so| - 1] == 0 then Ended(s) + [Open(s)] else Ended(s)
  }

  /** The literals after the last zero. */
  function Open(so: seq<int>): Clause {
    if so == [] || so[|so| - 1] == 0 then [] else Open(so[..|so| - 1]) + [so[|so| - 1]]
  }

  lemma NothingEnded()
    ensures Ended([]) == []
  {
  }

  lemma SavedPush(so: seq<int>, x: int)
    ensures Open(so + [x]) == if x == 0 then [] else Open(so) + [x]
    ensures Ended(so + [x]) == if x == 0 then Ended(so) + [Open(so)] else Ended(so)
  {
    assert (so + [x])[..|so|] == so;
  }

  /** The saved literals are those of the clauses of F, followed by the clause that is being added. */
  ghost predicate SavedOk(save: bool, so: seq<int>, added: Clause, F: set<Clause>) {
    if save then Open(so) == added && forall C :: C in F <==> C in Ended(so) else so == []
  }

  lemma SavedStep(save: bool, so: seq<int>, added: Clause, F: set<Clause>, lit: int)
    ensures var so' := so + if save then [lit] else [];
      SavedOk(save, so, added, F) ==>
        if lit == 0 then SavedOk(save, so', [], F + {added}) else SavedOk(save, so', added + [lit], F)
  {
    SavedPush(so, lit);
  }

  /** The saved literals belong to known variables, and those not ended yet are the last of the clause being added. */
  ghost predicate SavedPart(save: bool, so: seq<int>, added: Clause, n: nat) {
    if save then AllKnown(n, so) && exists k :: 0 <= k <= |added| && Open(so) == added[k..] else so == []
  }

  lemma KnownMore(so: seq<int>, n: nat, lit: int, n': nat)
    requires AllKnown(n, so) && n <= n' && Var(lit) <= n'
    ensures AllKnown(n', so + [lit])
  {
  }

  lemma SavedPartStep(save: bool, so: seq<int>, added: Clause, n: nat, lit: int, n': nat)
    requires n <= n' && Var(lit) <= n'
    ensures var so' := so + if save then [lit] else [];
      SavedPart(save, so, added, n) ==> SavedPart(save, so', if lit == 0 then [] else added + [lit], n')
  {
    hide Open, AllKnown;
    SavedPush(so, lit);
    if save && SavedPart(save, so, added, n) {
      var k :| 0 <= k <= |added| && Open(so) == added[k..];
      KnownMore(so, n, lit, n');
      if lit == 0 {
        assert Open(so + [lit]) == [][0..];
      } else {
        var more := added + [lit];
        assert more[k..] == added[k..] + [lit];
        assert Open(so + [lit]) == more[k..];
      }
    }
  }

  lemma SavedStart(added: Clause, n: nat)
    ensures SavedPart(true, [], added, n)
  {
    assert Open([]) == added[|added|..];
  }

  lemma SavedMore(save: bool, so: seq<int>, added: Clause, n: nat, n': nat)
    requires n <= n'
    ensures SavedPart(save, so, added, n) ==> SavedPart(save, so, added, n')
  {
  }

  lemma SavedDone(save: bool, so: seq<int>, n: nat)
    requires SavedPart(save, so, [], n)
    ensures AllKnown(n, so) && Open(so) == []
  {
  }

  /** Reading on from the start of a clause. */
  lemma {:induction false} ReadOn(so: seq<int>, c: nat, p: nat)
    requires c <= p <= |so| && Open(so[..c]) == []
    requires forall i :: c <= i < p ==> so[i] != 0
    ensures Open(so[..p]) == so[c..p] && Ended(so[..p]) == Ended(so[..c])
  {
    hide Open, Ended;
    if p == c {
      assert so[c..p] == [];
    } else {
      ReadOn(so, c, p - 1);
      SavedPush(so[..p - 1], so[p - 1]);
      assert so[..p] == so[..p - 1] + [so[p - 1]];
      assert so[c..p] == so[c..p - 1] + [so[p - 1]];
    }
  }

  ghost predicate AllKnown(n: nat, so: seq<int>) {
    forall x :: x in so ==> Var(x) <= n
  }

  /** The literals of saved clauses are saved, and none of them is zero. */
  lemma {:induction false} EndedKnown(so: seq<int>, C: Clause, l: Lit)
    requires (C in Ended(so) || C == Open(so)) && l in C
    ensures l in so && l != 0
  {
    var s, y := so[..|so| - 1], so[|so| - 1];
    assert so == s + [y];
    SavedPush(s, y);
    if l != y || y == 0 {
      if C in Ended(s) {
        EndedKnown(s, C, l);
      } else {
        EndedKnown(s, Open(s), l);
      }
    } else if C in Ended(so) {
      EndedKnown(s, C, l);
    }
  }

  // ---------- values ----------

  /** Every variable up to n has a value; lev holds the true literals with their levels. */
  ghost predicate TotalValues(n: nat, lev: map<Lit, nat>) {
    forall v: int :: 1 <= v <= n ==> (v in lev <==> -v !in lev)
  }

  function Value(lev: map<Lit, nat>, l: Lit): int {
    if l in lev then 1 else if -l in lev then -1 else 0
  }

  function Tderef(lev: map<Lit, nat>, l: Lit): int {
    if l in lev && lev[l] > 0 then 0
    else if -l in lev && lev[-l] > 0 then 0
    else Value(lev, l)
  }

  function Pderef(lev: map<Lit, nat>, partials: set<nat>, l: Lit): int {
    if Var(l) in partials then Value(lev, l) else 0
  }

  /** Some marked literal of the clause is true. */
  ghost predicate MarkedTrue(lev: map<Lit, nat>, partials: set<nat>, C: Clause) {
    exists l :: l in C && l in lev && Var(l) in partials
  }

  ghost predicate SomeTrue(lev: map<Lit, nat>, C: Clause) {
    exists l :: l in C && l in lev
  }

  /** Every clause that is true has a marked true literal. */
  ghost predicate AllMarked(lev: map<Lit, nat>, partials: set<nat>, cs: seq<Clause>) {
    forall C :: C in cs && SomeTrue(lev, C) ==> MarkedTrue(lev, partials, C)
  }

  ghost predicate AllTrue(lev: map<Lit, nat>, cs: seq<Clause>) {
    forall C :: C in cs ==> SomeTrue(lev, C)
  }

  /** What was marked is enough: every assignment that agrees on it satisfies all clauses that are true. */
  lemma MarkedImplies(lev: map<Lit, nat>, partials: set<nat>, cs: seq<Clause>, m: Model)
    requires AllMarked(lev, partials, cs)
    requires forall C, l :: C in cs && l in C && l in lev && Var(l) in partials ==> Holds(m, l)
    ensures forall C :: C in cs && SomeTrue(lev, C) ==> Satisfies(m, C)
  {
    forall C | C in cs && SomeTrue(lev, C)
      ensures Satisfies(m, C)
    {
      assert MarkedTrue(lev, partials, C);
      var l :| l in C && l in lev && Var(l) in partials;
      assert Holds(m, l);
    }
  }

  // ---------- choosing a literal ----------

  /** The occurrence table counts the literals from position c on. The entry of 0 counts all clauses. */
  ghost predicate CountsFrom(occs: seq<int>, n: nat, so: seq<int>, c: nat) {
    && |occs| == 2 * n + 1 && c <= |so|
    && occs[n] == multiset(so)[0]
    && forall x :: Var(x) <= n && x != 0 ==> occs[n + x] == multiset(so[c..])[x]
  }

  /** How often l occurs in the clauses. */
  function Occurrences(cs: seq<Clause>, l: Lit): nat {
    if cs == [] then 0 else multiset(cs[0])[l] + Occurrences(cs[1..], l)
  }

  /** No literal of C behind position j is true at top level. */
  ghost predicate LastTop(lev: map<Lit, nat>, C: Clause, j: nat) {
    forall i :: j < i < |C| ==> !TopTrue(lev, C[i])
  }

  /** Of the true literals of C from the last one on that is true at top level, the one at p is the first that occurs
      most often in the clauses cs. */
  ghost predicate BestAt(lev: map<Lit, nat>, cs: seq<Clause>, C: Clause, p: nat) {
    && p < |C| && C[p] in lev && LastTop(lev, C, p)
    && forall j :: 0 <= j < |C| && C[j] in lev && LastTop(lev, C, j) ==>
      if j < p then Occurrences(cs, C[j]) < Occurrences(cs, C[p]) else Occurrences(cs, C[j]) <= Occurrences(cs, C[p])
  }

  ghost predicate Best(lev: map<Lit, nat>, cs: seq<Clause>, C: Clause, best: Lit) {
    exists p: nat :: BestAt(lev, cs, C, p) && C[p] == best
  }

  /** What is picked in C; it is 0 if none of the literals is true. */
  ghost predicate Picked(lev: map<Lit, nat>, cs: seq<Clause>, C: Clause, best: Lit) {
    if SomeTrue(lev, C) then Best(lev, cs, C, best) else best == 0
  }

  /** The better of the best literal so far and the next one. */
  function Better(lev: map<Lit, nat>, cs: seq<Clause>, best: Lit, lit: Lit): Lit {
    if lit !in lev then best
    else if Tderef(lev, lit) > 0 then lit
    else if best != 0 && Occurrences(cs, lit) <= Occurrences(cs, best) then best
    else lit
  }

  lemma BetterIs(lev: map<Lit, nat>, cs: seq<Clause>, C: Clause, best: Lit, x: Lit)
    requires x != 0 && 0 !in C && (x in lev ==> -x !in lev) && Picked(lev, cs, C, best)
    ensures Picked(lev, cs, C + [x], Better(lev, cs, best, x))
  {
    hide Occurrences;
    assert x in lev ==> (TopTrue(lev, x) <==> Tderef(lev, x) > 0);
    assert x in C + [x];
    if x !in lev {
      if SomeTrue(lev, C) {
        var p: nat :| BestAt(lev, cs, C, p) && C[p] == best;
        assert C[p] in C && best in C + [x];
        BetterStays(lev, cs, C, p, x);
      }
    } else if TopTrue(lev, x) {
      NewTop(lev, cs, C, x);
    } else if SomeTrue(lev, C) {
      var p: nat :| BestAt(lev, cs, C, p) && C[p] == best;
      assert C[p] in C;
      if Occurrences(cs, x) <= Occurrences(cs, best) {
        BetterStays(lev, cs, C, p, x);
      } else {
        BetterNew(lev, cs, C, p, x);
      }
    } else {
      FirstTrue(lev, cs, C, x);
    }
  }

  lemma BetterStays(lev: map<Lit, nat>, cs: seq<Clause>, C: Clause, p: nat, x: Lit)
    requires BestAt(lev, cs, C, p) && !TopTrue(lev, x)
    requires x in lev ==> Occurrences(cs, x) <= Occurrences(cs, C[p])
    ensures BestAt(lev, cs, C + [x], p) && (C + [x])[p] == C[p]
  {
    hide Occurrences;
    var D := C + [x];
    forall j | 0 <= j < |D| && D[j] in lev && LastTop(lev, D, j)
      ensures if j < p then Occurrences(cs, D[j]) < Occurrences(cs, D[p])
              else Occurrences(cs, D[j]) <= Occurrences(cs, D[p])
    {
      if j < |C| {
        LastTopLess(lev, C, x, j);
      }
    }
  }

  lemma LastTopLess(lev: map<Lit, nat>, C: Clause, x: Lit, j: nat)
    requires LastTop(lev, C + [x], j) && j < |C|
    ensures LastTop(lev, C, j) && !TopTrue(lev, x)
  {
    assert (C + [x])[|C|] == x;
    forall i | j < i < |C|
      ensures !TopTrue(lev, C[i])
    {
      assert (C + [x])[i] == C[i];
    }
  }

  lemma NewTop(lev: map<Lit, nat>, cs: seq<Clause>, C: Clause, x: Lit)
    requires x in lev && TopTrue(lev, x)
    ensures BestAt(lev, cs, C + [x], |C|) && (C + [x])[|C|] == x
  {
    hide Occurrences, TopTrue;
    forall j | 0 <= j < |C| && LastTop(lev, C + [x], j)
      ensures false
    {
      LastTopLess(lev, C, x, j);
    }
  }

  lemma BetterNew(lev: map<Lit, nat>, cs: seq<Clause>, C: Clause, p: nat, x: Lit)
    requires BestAt(lev, cs, C, p) && x in lev && Occurrences(cs, x) > Occurrences(cs, C[p])
    ensures BestAt(lev, cs, C + [x], |C|) && (C + [x])[|C|] == x
  {
    hide Occurrences;
    var D := C + [x];
    forall j | 0 <= j < |C| && D[j] in lev && LastTop(lev, D, j)
      ensures Occurrences(cs, D[j]) < Occurrences(cs, x)
    {
      LastTopLess(lev, C, x, j);
    }
  }

  lemma FirstTrue(lev: map<Lit, nat>, cs: seq<Clause>, C: Clause, x: Lit)
    requires x in lev && !SomeTrue(lev, C)
    ensures BestAt(lev, cs, C + [x], |C|) && (C + [x])[|C|] == x
  {
    hide Occurrences;
    assert forall j :: 0 <= j < |C| ==> (C + [x])[j] in C;
  }

  /** Two literals cannot both be the best. */
  lemma BestOnce(lev: map<Lit, nat>, cs: seq<Clause>, C: Clause, a: Lit, b: Lit)
    requires Picked(lev, cs, C, a) && Picked(lev, cs, C, b)
    ensures a == b
  {
    hide Occurrences;
    if SomeTrue(lev, C) {
      var p: nat :| BestAt(lev, cs, C, p) && C[p] == a;
      var q: nat :| BestAt(lev, cs, C, q) && C[q] == b;
      assert p < q || q < p || p == q;
    }
  }

  /** The occurrence table counts the literals of C in the clauses cs. */
  ghost predicate TableOf(occs: seq<int>, n: nat, cs: seq<Clause>, C: Clause) {
    |occs| == 2 * n + 1 && forall l :: l in C ==> 1 <= Var(l) <= n && occs[n + l] == Occurrences(cs, l)
  }

  /** Looks for a true literal that is marked already; if there is none, picks one. The pick is 0 if no literal is true,
      where an assertion of the code fails. */
  method PickLiteral(n: nat, C: Clause, lev: map<Lit, nat>, occs: array<int>, partials: set<nat>, ghost cs: seq<Clause>)
    returns (found: bool, best: Lit)
    requires TotalValues(n, lev) && TableOf(occs[..], n, cs, C)
    ensures found <==> MarkedTrue(lev, partials, C)
    ensures Var(best) <= n
    ensures !found ==> Picked(lev, cs, C, best)
  {
    hide Picked, Occurrences;
    best := 0;
    var maxoccs := 0;
    NonePicked(lev, cs);
    assert C[..0] == [];
    for p := 0 to |C|
      invariant Var(best) <= n && (best in C || best == 0) && Picked(lev, cs, C[..p], best)
      invariant forall i :: 0 <= i < p ==> C[i] !in lev || Var(C[i]) !in partials
      invariant best != 0 ==> maxoccs == Occurrences(cs, best)
    {
      var lit := C[p];
      assert lit in C && C[..p + 1] == C[..p] + [lit];
      Consistent(n, lev, lit);
      BetterIs(lev, cs, C[..p], best, lit);
      if Tderef(lev, lit) < 0 {
        continue;
      }
      if Tderef(lev, lit) > 0 {
        best := lit;
        maxoccs := occs[n + lit];
      }
      if Pderef(lev, partials, lit) > 0 {
        return true, best;
      }
      if Pderef(lev, partials, lit) < 0 {
        continue;
      }
      if Value(lev, lit) < 0 {
        continue;
      }
      var tmpoccs := occs[n + lit];
      if best != 0 && tmpoccs <= maxoccs {
        continue;
      }
      best := lit;
      maxoccs := tmpoccs;
    }
    found := false;
    assert C[..|C|] == C;
  }

  lemma NonePicked(lev: map<Lit, nat>, cs: seq<Clause>)
    ensures Picked(lev, cs, [], 0)
  {
  }

  lemma Consistent(n: nat, lev: map<Lit, nat>, l: Lit)
    requires TotalValues(n, lev) && 1 <= Var(l) <= n
    ensures l in lev <==> -l !in lev
  {
    var v: int := Var(l);
    assert v in lev <==> -v !in lev;
  }

  // ---------- the clauses that are left ----------

  lemma {:induction false} OpenAfter(so: seq<int>, p: nat)
    requires p < |so| && so[p] == 0
    ensures Open(so) == Open(so[p + 1..])
  {
    var n := |so| - 1;
    if n > p && so[n] != 0 {
      OpenAfter(so[..n], p);
      assert so[p + 1..][..n - p - 1] == so[..n][p + 1..];
    }
  }

  lemma {:induction false} FirstEnded(so: seq<int>, p: nat)
    requires p < |so| && so[p] == 0 && forall i :: 0 <= i < p ==> so[i] != 0
    ensures Ended(so) == [so[..p]] + Ended(so[p + 1..])
  {
    var n := |so| - 1;
    if n == p {
      assert so[..0] == [] && so[0..p] == so[..p];
      ReadOn(so, 0, p);
    } else {
      FirstEnded(so[..n], p);
      assert so[..n][..p] == so[..p];
      assert so[p + 1..][..n - p - 1] == so[..n][p + 1..] && so[p + 1..][n - p - 1] == so[n];
      OpenAfter(so[..n], p);
    }
  }

  lemma {:induction false} OccursOnce(cs: seq<Clause>, C: Clause, l: Lit)
    ensures Occurrences(cs + [C], l) == Occurrences(cs, l) + multiset(C)[l]
  {
    if cs == [] {
      assert cs + [C] == [C];
    } else {
      OccursOnce(cs[1..], C, l);
      assert (cs + [C])[1..] == cs[1..] + [C];
    }
  }

  /** All saved literals are in clauses, or after the last of them. */
  lemma {:induction false} SavedCounts(so: seq<int>, l: Lit)
    requires l != 0
    ensures multiset(so)[l] == Occurrences(Ended(so), l) + multiset(Open(so))[l]
  {
    if so != [] {
      var s, y := so[..|so| - 1], so[|so| - 1];
      SavedCounts(s, l);
      assert so == s + [y];
      if y == 0 {
        OccursOnce(Ended(s), Open(s), l);
      }
    }
  }

  lemma OpenTail(so: seq<int>, c: nat)
    requires Open(so) == [] && c < |so|
    ensures Open(so[c..]) == []
  {
    assert so[c..][|so[c..]| - 1] == so[|so| - 1];
  }

  /** The table counts the clauses from the one that starts at c. */
  lemma TableFrom(occs: seq<int>, n: nat, so: seq<int>, c: nat, p: nat)
    requires CountsFrom(occs, n, so, c) && AllKnown(n, so) && Open(so) == []
    requires c <= p < |so| && so[p] == 0 && forall i :: c <= i < p ==> so[i] != 0
    ensures Ended(so[c..]) == [so[c..p]] + Ended(so[p + 1..])
    ensures TableOf(occs, n, Ended(so[c..]), so[c..p])
  {
    hide Occurrences, Ended, Open;
    var r, C := so[c..], so[c..p];
    FirstEnded(r, p - c);
    assert r[..p - c] == C && r[p - c + 1..] == so[p + 1..];
    OpenTail(so, c);
    forall l | l in C
      ensures 1 <= Var(l) <= n && occs[n + l] == Occurrences(Ended(r), l)
    {
      var i :| 0 <= i < |C| && C[i] == l;
      assert so[c + i] == l && l in so;
      SavedCounts(r, l);
    }
  }

  // ---------- greedy marks ----------

  /** What is done for the first of the clauses cs: nothing if a marked literal is true in it already; else the variable
      of the literal is marked that occurs most often in cs. */
  ghost predicate Chosen(lev: map<Lit, nat>, cs: seq<Clause>, before: set<nat>, after: set<nat>)
    requires cs != []
  {
    if MarkedTrue(lev, before, cs[0]) then after == before
    else exists best :: Picked(lev, cs, cs[0], best) && after == before + {Var(best)}
  }

  /** marks[i] is marked before clause i. */
  ghost predicate GreedyRun(lev: map<Lit, nat>, cs: seq<Clause>, marks: seq<set<nat>>) {
    && |marks| == |cs| + 1 && marks[0] == {}
    && forall i :: 0 <= i < |cs| ==> Chosen(lev, cs[i..], marks[i], marks[i + 1])
  }

  /** Going through the clauses in order, every clause in which no marked literal is true gets a mark of its own. */
  ghost predicate Greedy(lev: map<Lit, nat>, cs: seq<Clause>, partials: set<nat>) {
    exists marks :: GreedyRun(lev, cs, marks) && marks[|cs|] == partials
  }

  lemma ChosenMarks(lev: map<Lit, nat>, cs: seq<Clause>, before: set<nat>, after: set<nat>)
    requires cs != [] && Chosen(lev, cs, before, after)
    ensures before <= after && |after| <= |before| + 1
    ensures SomeTrue(lev, cs[0]) ==> MarkedTrue(lev, after, cs[0])
  {
    hide Occurrences;
    if !MarkedTrue(lev, before, cs[0]) {
      var best :| Picked(lev, cs, cs[0], best) && after == before + {Var(best)};
      if SomeTrue(lev, cs[0]) {
        var p: nat :| BestAt(lev, cs, cs[0], p) && cs[0][p] == best;
        assert best in cs[0];
      }
    }
  }

  lemma {:induction false} RunMarks(lev: map<Lit, nat>, cs: seq<Clause>, marks: seq<set<nat>>, k: nat)
    requires GreedyRun(lev, cs, marks) && k <= |cs|
    ensures |marks[k]| <= k && forall i :: 0 <= i < k && SomeTrue(lev, cs[i]) ==> MarkedTrue(lev, marks[k], cs[i])
  {
    hide Chosen, MarkedTrue;
    if k > 0 {
      RunMarks(lev, cs, marks, k - 1);
      ChosenMarks(lev, cs[k - 1..], marks[k - 1], marks[k]);
      forall i | 0 <= i < k && SomeTrue(lev, cs[i])
        ensures MarkedTrue(lev, marks[k], cs[i])
      {
        if i < k - 1 {
          MarkedStill(lev, marks[k - 1], marks[k], cs[i]);
        }
      }
    }
  }

  lemma MarkedStill(lev: map<Lit, nat>, partials: set<nat>, more: set<nat>, C: Clause)
    requires MarkedTrue(lev, partials, C) && partials <= more
    ensures MarkedTrue(lev, more, C)
  {
  }

  /** Greedy marks are enough for all clauses that are true, and at most one for each clause. */
  lemma GreedyMarks(lev: map<Lit, nat>, cs: seq<Clause>, partials: set<nat>)
    requires Greedy(lev, cs, partials)
    ensures AllMarked(lev, partials, cs) && |partials| <= |cs|
  {
    hide Chosen, MarkedTrue, SomeTrue;
    var marks :| GreedyRun(lev, cs, marks) && marks[|cs|] == partials;
    RunMarks(lev, cs, marks, |cs|);
    forall C | C in cs && SomeTrue(lev, C)
      ensures MarkedTrue(lev, partials, C)
    {
      var i :| 0 <= i < |cs| && cs[i] == C;
    }
  }

  /** There is only one way to do it. */
  lemma GreedyOnce(lev: map<Lit, nat>, cs: seq<Clause>, P: set<nat>, Q: set<nat>)
    requires Greedy(lev, cs, P) && Greedy(lev, cs, Q)
    ensures P == Q
  {
    hide Chosen;
    var marks :| GreedyRun(lev, cs, marks) && marks[|cs|] == P;
    var others :| GreedyRun(lev, cs, others) && others[|cs|] == Q;
    SameRun(lev, cs, marks, others, |cs|);
  }

  lemma {:induction false} SameRun(lev: map<Lit, nat>, cs: seq<Clause>, marks: seq<set<nat>>, others: seq<set<nat>>,
                                   k: nat)
    requires GreedyRun(lev, cs, marks) && GreedyRun(lev, cs, others) && k <= |cs|
    ensures marks[k] == others[k]
  {
    hide Picked, MarkedTrue;
    if k > 0 {
      SameRun(lev, cs, marks, others, k - 1);
      var rest := cs[k - 1..];
      assert Chosen(lev, rest, marks[k - 1], marks[k]) && Chosen(lev, rest, others[k - 1], others[k]);
      if !MarkedTrue(lev, marks[k - 1], rest[0]) {
        var a :| Picked(lev, rest, rest[0], a) && marks[k] == marks[k - 1] + {Var(a)};
        var b :| Picked(lev, rest, rest[0], b) && others[k] == others[k - 1] + {Var(b)};
        BestOnce(lev, rest, rest[0], a, b);
      }
    }
  }

  /** The run so far, up to the clause at c. */
  ghost predicate Running(lev: map<Lit, nat>, so: seq<int>, c: nat, marks: seq<set<nat>>, partials: set<nat>) {
    var cs := Ended(so);
    && 1 <= |marks| <= |cs| + 1 && marks[0] == {} && marks[|marks| - 1] == partials
    && c <= |so| && Ended(so[c..]) == cs[|marks| - 1..]
    && forall i :: 0 <= i < |marks| - 1 ==> Chosen(lev, cs[i..], marks[i], marks[i + 1])
  }

  lemma RunStart(lev: map<Lit, nat>, so: seq<int>)
    ensures Running(lev, so, 0, [{}], {})
  {
    assert so[0..] == so && Ended(so)[0..] == Ended(so);
  }

  lemma RunOn(lev: map<Lit, nat>, so: seq<int>, c: nat, p: nat, marks: seq<set<nat>>, partials: set<nat>,
              more: set<nat>)
    requires Running(lev, so, c, marks, partials) && c <= p < |so|
    requires Ended(so[c..]) == [so[c..p]] + Ended(so[p + 1..]) && Chosen(lev, Ended(so[c..]), partials, more)
    ensures Running(lev, so, p + 1, marks + [more], more)
  {
    hide Chosen, Ended;
    var cs, k := Ended(so), |marks| - 1;
    assert cs[k..] != [] && cs[k..][1..] == cs[k + 1..];
    assert Ended(so[c..])[1..] == Ended(so[p + 1..]);
    var next := marks + [more];
    forall i | 0 <= i < |next| - 1
      ensures Chosen(lev, cs[i..], next[i], next[i + 1])
    {
      if i < k {
        assert next[i] == marks[i] && next[i + 1] == marks[i + 1];
      } else {
        assert next[i] == partials && next[i + 1] == more;
      }
    }
  }

  lemma RunEnd(lev: map<Lit, nat>, so: seq<int>, marks: seq<set<nat>>, partials: set<nat>)
    requires Running(lev, so, |so|, marks, partials)
    ensures Greedy(lev, Ended(so), partials)
  {
    hide Chosen, Ended;
    NothingEnded();
    assert so[|so|..] == [];
    assert |marks| == |Ended(so)| + 1;
    assert GreedyRun(lev, Ended(so), marks);
  }

  // ---------- marking ----------

  /** Takes the literals of a clause out of the table. */
  method CountDown(n: nat, so: seq<int>, c: nat, p: nat, occs: array<int>)
    requires c <= p < |so| && so[p] == 0 && forall i :: c <= i < p ==> so[i] != 0
    requires AllKnown(n, so)
    requires CountsFrom(occs[..], n, so, c)
    modifies occs
    ensures CountsFrom(occs[..], n, so, p + 1)
  {
    var q := c;
    while so[q] != 0
      invariant c <= q <= p && CountsFrom(occs[..], n, so, q)
      decreases p - q
    {
      assert so[q] in so && so[q..] == [so[q]] + so[q + 1..];
      assert occs[n + so[q]] > 0;
      occs[n + so[q]] := occs[n + so[q]] - 1;
      q := q + 1;
    }
    assert so[p..] == [0] + so[p + 1..];
  }

  method CountAll(n: nat, so: seq<int>, occs: array<int>)
    requires occs.Length == 2 * n + 1 && forall i :: 0 <= i < occs.Length ==> occs[i] == 0
    requires AllKnown(n, so)
    modifies occs
    ensures CountsFrom(occs[..], n, so, 0)
  {
    for p := 0 to |so|
      invariant forall x :: Var(x) <= n ==> occs[n + x] == multiset(so[..p])[x]
    {
      assert so[p] in so && so[..p + 1] == so[..p] + [so[p]];
      occs[n + so[p]] := occs[n + so[p]] + 1;
    }
    assert so[..|so|] == so == so[0..];
  }

  method ClauseEnd(so: seq<int>, c: nat) returns (p: nat)
    requires c < |so| && Open(so) == []
    ensures c <= p < |so| && so[p] == 0 && forall i :: c <= i < p ==> so[i] != 0
  {
    p := c;
    while so[p] != 0
      invariant c <= p < |so| && forall i :: c <= i < p ==> so[i] != 0
      decreases |so| - p
    {
      p := p + 1;
    }
  }

  /** Makes sure that some true literal of the clause at c is marked if there is one. */
  method MarkClause(n: nat, so: seq<int>, c: nat, p: nat, lev: map<Lit, nat>, occs: array<int>, partials: set<nat>)
    returns (more: set<nat>)
    requires TotalValues(n, lev) && AllKnown(n, so) && Open(so) == []
    requires c <= p < |so| && so[p] == 0 && forall i :: c <= i < p ==> so[i] != 0
    requires CountsFrom(occs[..], n, so, c)
    modifies occs
    ensures CountsFrom(occs[..], n, so, p + 1)
    ensures Ended(so[c..]) == [so[c..p]] + Ended(so[p + 1..]) && Chosen(lev, Ended(so[c..]), partials, more)
    ensures forall v :: v in more && v !in partials ==> v <= n
  {
    hide TotalValues, Picked, CountsFrom, Ended, Open, MarkedTrue;
    more := partials;
    TableFrom(occs[..], n, so, c, p);
    var found, best := PickLiteral(n, so[c..p], lev, occs, partials, Ended(so[c..]));
    if !found {
      more := partials + {Var(best)};
    }
    CountDown(n, so, c, p, occs);
  }

  /** Marks variables until every saved clause that is true has a marked true literal: for each clause that has none yet
      the one that occurs most often from there on. */
  method Minautarky(n: nat, so: seq<int>, lev: map<Lit, nat>) returns (partials: set<nat>)
    requires TotalValues(n, lev) && Open(so) == []
    requires AllKnown(n, so)
    ensures Greedy(lev, Ended(so), partials)
    ensures AllMarked(lev, partials, Ended(so)) && |partials| <= |Ended(so)|
    ensures forall v :: v in partials ==> v <= n
  {
    hide Ended, Open, Chosen, TotalValues, CountsFrom, Running, AllMarked, Greedy;
    partials := {};
    var occs := new int[2 * n + 1](i => 0);
    CountAll(n, so, occs);
    var c := 0;
    ghost var marks: seq<set<nat>> := [{}];
    RunStart(lev, so);
    while c < |so|
      invariant 0 <= c <= |so| && Running(lev, so, c, marks, partials)
      invariant CountsFrom(occs[..], n, so, c) && fresh(occs)
      invariant forall v :: v in partials ==> v <= n
    {
      var p := ClauseEnd(so, c);
      ghost var before := partials;
      partials := MarkClause(n, so, c, p, lev, occs, partials);
      RunOn(lev, so, c, p, marks, before, partials);
      marks := marks + [partials];
      c := p + 1;
    }
    RunEnd(lev, so, marks, partials);
    GreedyMarks(lev, Ended(so), partials);
  }
}
