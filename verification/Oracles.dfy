/** Algorithms that use the solver as an oracle: maximal satisfiable subsets of the assumptions, minimal
    correcting subsets, the union of all of these, and minimal unsatisfiable subsets. */
module Oracles {
  import opened Cnf
  import opened Trails
  import opened States
  import opened Failing
  import opened Verdicts
  import opened Searching
  import opened Importing
  import opened Links
  import opened Solver
  import opened Subsets

  /** The solver is usable, between two clauses, and its searches always end with an answer. */
  ghost predicate Usable(ps: PicoSAT)
    reads ps, ps.heap
  {
    ps.Valid() && ps.added == [] && ps.Unlimited()
  }

  ghost predicate KnownLits(n: nat, s: seq<Lit>) {
    forall l :: l in s ==> 1 <= Var(l) <= n
  }

  /** The negation of a is true at top level. */
  ghost predicate TopFalse(T: Trail, a: Lit) {
    -a in T.lev && T.lev[-a] == 0
  }

  /** No assumptions are pending. */
  ghost predicate Clean(ps: PicoSAT)
    reads ps, ps.heap
  {
    ps.state.READY? ==> ps.als == []
  }

  /** The assumptions made since the last search. */
  ghost function Pending(ps: PicoSAT): seq<Lit>
    reads ps
  {
    if ps.state.READY? then ps.als else []
  }

  /** Assumes the literals of s, too. */
  method AssumeAll(ps: PicoSAT, s: seq<Lit>)
    requires Usable(ps) && KnownLits(ps.maxVar, s)
    modifies ps, ps.heap
    ensures Usable(ps) && ps.F == old(ps.F) && ps.maxVar == old(ps.maxVar) && ps.mtcls == old(ps.mtcls)
    ensures if s == [] then ps.state == old(ps.state) && ps.als == old(ps.als)
            else ps.state.READY? && ps.als == old(Pending(ps)) + s
    ensures old(Clean(ps)) && s != [] ==> ps.als == s
    ensures TopKept(old(ps.t), ps.t)
  {
    hide PicoSAT.Valid, PicoSAT.Unlimited, TopKept;
    TopKeptSelf(ps.t);
    for i := 0 to |s|
      invariant Usable(ps) && ps.F == old(ps.F) && ps.maxVar == old(ps.maxVar) && ps.mtcls == old(ps.mtcls)
      invariant if i == 0 then ps.state == old(ps.state) && ps.als == old(ps.als)
        else ps.state.READY? && ps.als == old(Pending(ps)) + s[..i]
      invariant TopKept(old(ps.t), ps.t)
    {
      ghost var T := ps.t;
      assert s[i] in s;
      assert s[..i + 1] == s[..i] + [s[i]];
      ps.Assume(s[i]);
      TopKeptOn(old(ps.t), T, ps.t);
    }
    assert s[..|s|] == s;
    assert old(Clean(ps)) ==> old(Pending(ps)) + s == s;
  }

  /** Solves under the assumptions s and those made since the last search. */
  method SolveUnder(ps: PicoSAT, s: seq<Lit>) returns (sat: bool)
    requires Usable(ps) && KnownLits(ps.maxVar, s)
    modifies ps, ps.heap
    ensures Usable(ps) && Clean(ps) && ps.F == old(ps.F) && ps.maxVar == old(ps.maxVar)
    ensures !ps.state.READY? && ps.als == old(Pending(ps)) + s && (old(ps.mtcls).Some? ==> ps.mtcls.Some?)
    ensures old(Clean(ps)) ==> ps.als == s
    ensures ps.state == (if sat then SAT else UNSAT) && ps.Meaning(if sat then Satisfiable else Unsatisfiable)
    ensures TopKept(old(ps.t), ps.t)
  {
    hide PicoSAT.Valid, PicoSAT.Unlimited, PicoSAT.Meaning, TopKept;
    AssumeAll(ps, s);
    ghost var T := ps.t;
    var res := ps.Solve(-1);
    TopKeptOn(old(ps.t), T, ps.t);
    NotUnknown(ps, res);
    sat := res.Satisfiable?;
  }

  lemma NotUnknown(ps: PicoSAT, r: Verdict)
    requires r.Unknown? ==> !ps.Unlimited()
    requires ps.Unlimited()
    ensures !r.Unknown?
  {
  }

  // ---------- maximal satisfiable subsets ----------

  /** The literals of s are in M or cannot be added to it. */
  ghost predicate Tried(F: set<Clause>, M: set<Lit>, s: seq<Lit>) {
    forall x :: x in s ==> x in M || Refuted(F, M + {x})
  }

  /** c lists some of the literals of s, each of them as often as s does. */
  ghost predicate Picks(c: seq<Lit>, s: seq<Lit>) {
    forall l :: multiset(c)[l] == if l in c then multiset(s)[l] else 0
  }

  lemma PicksMore(c: seq<Lit>, s: seq<Lit>, x: Lit)
    requires Picks(c, s) && (x in s ==> x in c)
    ensures Picks(c + [x], s + [x])
  {
    assert x !in c ==> multiset(s)[x] == 0;
  }

  lemma PicksNot(c: seq<Lit>, s: seq<Lit>, x: Lit)
    requires Picks(c, s) && x !in c
    ensures Picks(c, s + [x])
  {
  }

  lemma PicksLess(c: seq<Lit>, s: seq<Lit>)
    requires Picks(c, s)
    ensures multiset(c) <= multiset(s)
  {
    assert forall l :: multiset(c)[l] <= multiset(s)[l];
  }

  /** The literals collected so far are among those tried, and go together with F. */
  ghost predicate Gathered(F: set<Clause>, T: Trail, mtcls: Option<Cid>, c: seq<Lit>, s: seq<Lit>) {
    && (forall x :: x in c ==> x in s) && Picks(c, s)
    && Tried(F, Assumed(c), s)
    && (c != [] ==> !Refuted(F, Assumed(c)))
    && (c == [] && mtcls.None? ==> forall x :: x in s ==> TopFalse(T, x))
    && (mtcls.Some? ==> Refuted(F, {}))
  }

  lemma AssumedLess(c: seq<Lit>, s: seq<Lit>)
    requires forall x :: x in c ==> x in s
    ensures Assumed(c) <= Assumed(s)
  {
    forall x | x in Assumed(c)
      ensures x in Assumed(s)
    {
      assert x in c;
    }
  }

  lemma AssumedPush(c: seq<Lit>, x: Lit)
    ensures Assumed(c + [x]) == Assumed(c) + {x}
  {
    assert forall l :: l in c + [x] <==> l in c || l == x;
  }

  lemma TriedMore(F: set<Clause>, M: set<Lit>, N: set<Lit>, s: seq<Lit>)
    requires Tried(F, M, s) && M <= N
    ensures Tried(F, N, s)
  {
    hide Refuted;
    forall x | x in s
      ensures x in N || Refuted(F, N + {x})
    {
      if x !in M {
        RefutedMore(F, M + {x}, N + {x});
      }
    }
  }

  lemma NotCollected(F: set<Clause>, c: seq<Lit>, x: Lit)
    requires Refuted(F, Assumed(c) + {x}) && (c != [] ==> !Refuted(F, Assumed(c)))
    ensures x !in c
  {
    hide Refuted;
    AlreadyAssumed(c, x);
  }

  lemma AlreadyAssumed(c: seq<Lit>, x: Lit)
    ensures x in c ==> Assumed(c) + {x} == Assumed(c)
  {
  }

  /** A single assumption that fails is false at top level. */
  lemma OneFails(ps: PicoSAT, x: Lit)
    requires ps.Meaning(Unsatisfiable) && ps.als == [x] && ps.mtcls.None?
    ensures TopFalse(ps.t, x)
  {
    hide Refuted;
    var a :| a in ps.als && TopOrAssumed(ps.t, ps.als, a);
    assert forall b :: b in [x] ==> b == x;
  }

  lemma FailedRefutes(ps: PicoSAT)
    requires ps.Meaning(Unsatisfiable)
    ensures Refuted(ps.F, Assumed(ps.als)) && (ps.mtcls.Some? ==> Refuted(ps.F, {}))
  {
  }

  /** The assumption was found incompatible with those collected. */
  lemma CollectNot(ps: PicoSAT, T: Trail, mtcls: Option<Cid>, c: seq<Lit>, s: seq<Lit>, x: Lit)
    requires Gathered(ps.F, T, mtcls, c, s) && TopKept(T, ps.t) && (mtcls.Some? ==> ps.mtcls.Some?)
    requires ps.Meaning(Unsatisfiable) && ps.als == c + [x]
    ensures Gathered(ps.F, ps.t, ps.mtcls, c, s + [x])
  {
    hide Refuted, Picks, Assumed, PicoSAT.Meaning;
    AssumedPush(c, x);
    FailedRefutes(ps);
    NotCollected(ps.F, c, x);
    PicksNot(c, s, x);
    if c == [] && ps.mtcls.None? {
      assert [] + [x] == [x];
      OneFails(ps, x);
    }
  }

  /** The search found a model m with the assumption x; those of s stay tried. */
  ghost predicate Extending(F: set<Clause>, m: Model, c: seq<Lit>, s: seq<Lit>) {
    && c != [] && Models(m, F) && Agrees(m, Assumed(c))
    && (forall x :: x in c ==> x in s) && Picks(c, s)
    && Tried(F, Assumed(c), s)
  }

  /** What was tried before without success is false in every model found later. */
  lemma TriedFalse(F: set<Clause>, m: Model, c: seq<Lit>, s: seq<Lit>, x: Lit)
    requires Tried(F, Assumed(c), s) && Models(m, F) && Agrees(m, Assumed(c) + {x}) && x in s
    ensures x in c
  {
    hide Models, Agrees;
    if x !in Assumed(c) {
      NotRefuted(F, Assumed(c) + {x}, m);
      assert false;
    }
  }

  lemma ExtendFirst(ps: PicoSAT, T: Trail, mtcls: Option<Cid>, c: seq<Lit>, s: seq<Lit>, x: Lit)
    requires Gathered(ps.F, T, mtcls, c, s)
    requires ps.Meaning(Satisfiable) && forall l :: l in c + [x] ==> l in ps.als
    ensures Extending(ps.F, ps.Assignment(), c + [x], s + [x])
  {
    hide Refuted, Models, Agrees, Picks;
    AssumedPush(c, x);
    AssumedLess(c + [x], ps.als);
    AgreesLess(ps.Assignment(), Assumed(c + [x]), Assumed(ps.als));
    TriedMore(ps.F, Assumed(c), Assumed(c + [x]), s);
    if x in s {
      TriedFalse(ps.F, ps.Assignment(), c, s, x);
    }
    PicksMore(c, s, x);
  }

  lemma ExtendMore(F: set<Clause>, m: Model, c: seq<Lit>, s: seq<Lit>, x: Lit)
    requires Extending(F, m, c, s) && Holds(m, x)
    ensures Extending(F, m, c + [x], s + [x])
  {
    hide Refuted, Models, Picks;
    AssumedPush(c, x);
    TriedMore(F, Assumed(c), Assumed(c + [x]), s);
    if x in s {
      TriedFalse(F, m, c, s, x);
    }
    PicksMore(c, s, x);
  }

  lemma ExtendDone(F: set<Clause>, T: Trail, m: Model, c: seq<Lit>, s: seq<Lit>)
    requires Extending(F, m, c, s)
    ensures Gathered(F, T, None, c, s)
  {
    hide Models, Agrees, Picks;
  }

  lemma GatheredPicks(F: set<Clause>, T: Trail, mtcls: Option<Cid>, c: seq<Lit>, s: seq<Lit>)
    requires Gathered(F, T, mtcls, c, s)
    ensures Picks(c, s) && multiset(c) <= multiset(s)
  {
    hide Refuted, Picks;
    PicksLess(c, s);
  }

  /** Finds a maximal satisfiable subset of the assumptions in a, which it permutes. If assumptions were made since the
      last search they join the first one here; if that fails the first assumption in a is passed over for good. */
  method Mss(ps: PicoSAT, a: array<Lit>) returns (mssass: array<Lit>, k: nat, ghost lost: nat)
    requires Usable(ps) && ps.mtcls.None? && KnownLits(ps.maxVar, a[..])
    modifies ps, ps.heap, a
    ensures Usable(ps) && ps.F == old(ps.F) && ps.maxVar == old(ps.maxVar)
    ensures a.Length > 0 || !old(ps.state.READY?) ==> !ps.state.READY?
    ensures fresh(mssass) && k <= a.Length == mssass.Length - 1 && mssass[k] == 0
    ensures multiset(a[..]) == multiset(old(a[..]))
    ensures lost <= 1 && lost <= a.Length && Gathered(ps.F, ps.t, ps.mtcls, mssass[..k], a[lost..])
    ensures lost == 1 <==> LosesFirst(ps.F, old(ps.state.READY?), old(Pending(ps)), old(a[..]))
    ensures lost == 1 ==> a[0] == old(a[0])
    ensures a.Length == 0 ==> ps.als == old(ps.als)
    ensures Picks(mssass[..k], a[lost..]) && multiset(mssass[..k]) <= multiset(a[..])
  {
    hide PicoSAT.Valid, PicoSAT.Unlimited, Gathered, LosesFirst, Pending, KnownLits, Picks;
    mssass := new Lit[a.Length + 1];
    k, lost := 0, 0;
    ghost var A := a[..];
    CollectNone(ps);
    var i := 0;
    assert a[..0] == [] && mssass[..0] == [];
    NothingLost(ps.F, ps.state.READY?, Pending(ps), A);
    while i < a.Length
      invariant 0 <= i <= a.Length && k <= i && lost <= i && lost <= 1
      invariant Usable(ps) && ps.F == old(ps.F) && ps.maxVar == old(ps.maxVar)
      invariant i > 0 || !old(ps.state.READY?) ==> !ps.state.READY?
      invariant multiset(a[..]) == multiset(A)
      invariant Gathered(ps.F, ps.t, ps.mtcls, mssass[..k], a[lost..i])
      invariant i == 0 ==>
        ps.als == old(ps.als) && ps.state == old(ps.state) && Pending(ps) == old(Pending(ps)) && a[..] == A
      invariant i > 0 || !old(ps.state.READY?) ==>
        (lost == 1 <==> LosesFirst(ps.F, old(ps.state.READY?), old(Pending(ps)), A))
      invariant lost == 1 ==> a[0] == A[0]
      decreases a.Length - i
    {
      PermKnown(ps.maxVar, A, a[..]);
      i, k, lost := TryNext(ps, a, mssass, i, k, lost, A);
      i := i + 1;
    }
    mssass[k] := 0;
    assert a[lost..a.Length] == a[lost..];
    GatheredPicks(ps.F, ps.t, ps.mtcls, mssass[..k], a[lost..]);
    assert a[..] == a[..lost] + a[lost..];
  }

  /** Tries to add the assumption at i0 to those collected, and with it all that are true then. */
  method TryNext(ps: PicoSAT, a: array<Lit>, mssass: array<Lit>, i0: nat, k0: nat, ghost lost0: nat, ghost A: seq<Lit>)
    returns (i: nat, k: nat, ghost lost: nat)
    requires Usable(ps) && KnownLits(ps.maxVar, a[..])
    requires k0 <= i0 < a.Length == mssass.Length - 1 && a != mssass && lost0 <= i0
    requires Gathered(ps.F, ps.t, ps.mtcls, mssass[..k0], a[lost0..i0])
    requires ps.state.READY? ==> i0 == 0 && a[..] == A
    modifies ps, ps.heap, a, mssass
    ensures Usable(ps) && !ps.state.READY? && ps.F == old(ps.F) && ps.maxVar == old(ps.maxVar)
    ensures i0 <= i < a.Length && k <= i + 1 && multiset(a[..]) == multiset(old(a[..])) && a[..i0] == old(a[..i0])
    ensures old(ps.state.READY?) ==> lost <= 1 && (lost == 1 <==> LosesFirst(ps.F, true, old(Pending(ps)), A))
    ensures !old(ps.state.READY?) ==> lost == lost0
    ensures lost == 1 && old(ps.state.READY?) ==> a[0] == old(a[0])
    ensures Gathered(ps.F, ps.t, ps.mtcls, mssass[..k], a[lost..i + 1])
  {
    hide PicoSAT.Valid, PicoSAT.Unlimited, PicoSAT.Meaning, Gathered, Extending, TopKept, LosesFirst;
    i, k, lost := i0, k0, lost0;
    ghost var T, mtcls, pending, ready := ps.t, ps.mtcls, Pending(ps), ps.state.READY?;
    CollectKnown(ps.maxVar, mssass[..k], a[..], lost, i, ps, T, mtcls);
    var sat := SolveUnder(ps, mssass[..k] + [a[i]]);
    assert a[lost..i + 1] == a[lost..i] + [a[i]];
    if ready {
      assert mssass[..k] + [a[i]] == [A[0]];
      FirstSearch(ps, sat, ready, pending, A);
    }
    if sat {
      ExtendFirst(ps, T, mtcls, mssass[..k], a[lost..i], a[i]);
      i, k := AddTrue(ps, a, mssass, i, k, lost);
      ExtendDone(ps.F, ps.t, ps.Assignment(), mssass[..k], a[lost..i + 1]);
      assert ps.mtcls.None? by { SatNoEmpty(ps); }
    } else if ready {
      lost := 1;
      CollectLost(ps);
      assert a[1..1] == [] && mssass[..k] == [];
    } else {
      CollectNot(ps, T, mtcls, mssass[..k], a[lost..i], a[i]);
    }
  }

  /** The first search is not one for the first assumption alone, and it fails. */
  ghost predicate LosesFirst(F: set<Clause>, ready: bool, pending: seq<Lit>, a: seq<Lit>) {
    ready && a != [] && Refuted(F, Assumed(pending + [a[0]]))
  }

  lemma NothingLost(F: set<Clause>, ready: bool, pending: seq<Lit>, a: seq<Lit>)
    ensures !ready || a == [] ==> !LosesFirst(F, ready, pending, a)
  {
  }

  lemma FirstSearch(ps: PicoSAT, sat: bool, ready: bool, pending: seq<Lit>, a: seq<Lit>)
    requires ps.Meaning(if sat then Satisfiable else Unsatisfiable) && a != [] && ps.als == pending + [a[0]]
    ensures LosesFirst(ps.F, ready, pending, a) <==> ready && !sat
  {
    if sat {
      NotRefuted(ps.F, Assumed(ps.als), ps.Assignment());
    }
  }

  lemma NotRefuted(F: set<Clause>, A: set<Lit>, m: Model)
    requires Models(m, F) && Agrees(m, A)
    ensures !Refuted(F, A)
  {
  }

  lemma CollectLost(ps: PicoSAT)
    requires ps.Meaning(Unsatisfiable)
    ensures Gathered(ps.F, ps.t, ps.mtcls, [], [])
  {
  }

  lemma SatNoEmpty(ps: PicoSAT)
    requires ps.Meaning(Satisfiable)
    ensures ps.mtcls == None
  {
  }

  lemma CollectNone(ps: PicoSAT)
    requires ps.mtcls.None?
    ensures Gathered(ps.F, ps.t, ps.mtcls, [], [])
  {
  }

  lemma PermKnown(n: nat, s: seq<Lit>, r: seq<Lit>)
    requires KnownLits(n, s) && multiset(s) == multiset(r)
    ensures KnownLits(n, r)
  {
    forall l | l in r
      ensures 1 <= Var(l) <= n
    {
      assert l in multiset(r);
    }
  }

  lemma CollectKnown(n: nat, c: seq<Lit>, a: seq<Lit>, lost: nat, i: nat, ps: PicoSAT, T: Trail, mtcls: Option<Cid>)
    requires lost <= i < |a| && KnownLits(n, a) && Gathered(ps.F, T, mtcls, c, a[lost..i])
    ensures KnownLits(n, c + [a[i]])
  {
    hide Refuted;
    assert a[i] in a;
    forall l | l in c
      ensures l in a
    {
      assert l in a[lost..i];
    }
  }

  /** After a successful search, adds all other assumptions that happen to be true, and moves them to the front. */
  method AddTrue(ps: PicoSAT, a: array<Lit>, mssass: array<Lit>, i0: nat, k0: nat, ghost lost: nat)
    returns (i: nat, k: nat)
    requires Usable(ps) && ps.state.SAT? && KnownLits(ps.maxVar, a[..])
    requires k0 <= i0 < a.Length == mssass.Length - 1 && a != mssass && lost <= i0
    requires Extending(ps.F, ps.Assignment(), mssass[..k0] + [a[i0]], a[lost..i0] + [a[i0]])
    modifies a, mssass
    ensures k0 < k <= i + 1 && i0 <= i < a.Length
    ensures multiset(a[..]) == multiset(old(a[..])) && a[..i0] == old(a[..i0])
    ensures Extending(ps.F, ps.Assignment(), mssass[..k], a[lost..i + 1])
  {
    hide PicoSAT.Valid, PicoSAT.Unlimited, Extending, PicoSAT.Assignment;
    i, k := i0, k0;
    mssass[k] := a[i];
    assert mssass[..k + 1] == old(mssass[..k0]) + [a[i0]];
    assert a[lost..i + 1] == a[lost..i] + [a[i]];
    k := k + 1;
    ghost var A := a[..];
    for j := i + 1 to a.Length
      invariant k0 < k <= i + 1 && i0 <= i < j
      invariant multiset(a[..]) == multiset(A) && a[..i0] == A[..i0]
      invariant Extending(ps.F, ps.Assignment(), mssass[..k], a[lost..i + 1])
    {
      PermKnown(ps.maxVar, A, a[..]);
      assert a[j] in a[..];
      var v := ps.Deref(a[j]);
      if v <= 0 {
        continue;
      }
      ExtendMore(ps.F, ps.Assignment(), mssass[..k], a[lost..i + 1], a[j]);
      ghost var b, i1 := a[..], i;
      i, k := TakeTrue(a, mssass, i, k, j);
      assert a[..i + 1] == b[..i1 + 1] + [b[j]];
      assert a[lost..i + 1] == b[lost..i1 + 1] + [b[j]];
    }
  }

  /** Takes a[j] into the subset, and moves it to the front. */
  method TakeTrue(a: array<Lit>, mssass: array<Lit>, i0: nat, k0: nat, j: nat) returns (i: nat, k: nat)
    requires i0 < j < a.Length && k0 < mssass.Length && a != mssass
    modifies a, mssass
    ensures i == i0 + 1 && k == k0 + 1
    ensures multiset(a[..]) == multiset(old(a[..]))
    ensures mssass[..k] == old(mssass[..k0] + [a[j]]) && a[..i + 1] == old(a[..i0 + 1] + [a[j]])
  {
    i, k := i0, k0;
    ghost var was := a[..];
    mssass[k] := a[j];
    k := k + 1;
    i := i + 1;
    if i != j {
      a[i], a[j] := a[j], a[i];
      assert a[..] == was[i := was[j]][j := was[i]];
      SwapPerm(was, i, j);
    }
    assert a[..i] == was[..i];
  }

  lemma SwapPerm(s: seq<Lit>, i: nat, j: nat)
    requires i < j < |s|
    ensures multiset(s[i := s[j]][j := s[i]]) == multiset(s)
  {
  }

  /** If the first assumption was passed over the subset is maximal only if it cannot be added either. */
  lemma LostMss(F: set<Clause>, T: Trail, mtcls: Option<Cid>, c: seq<Lit>, s: seq<Lit>)
    requires s != [] && Gathered(F, T, mtcls, c, s[1..])
    ensures IsMss(F, Assumed(s), Assumed(c)) <==>
      !Refuted(F, {}) && (s[0] in c || Refuted(F, Assumed(c) + {s[0]}))
    ensures forall x :: x in c ==> x in s && x in s[1..]
    ensures mtcls.Some? ==> Refuted(F, {})
  {
    CollectedMss(F, T, mtcls, c, s[1..]);
    FirstAssumed(s);
    InAssumed(c);
    AssumedLess(c, s[1..]);
    hide Refuted, Assumed;
    var A, B, M := Assumed(s), Assumed(s[1..]), Assumed(c);
    assert s[0] in A && A == B + {s[0]};
    MssMore(F, B, s[0], M);
  }

  /** One assumption more leaves a subset maximal if it cannot be added. */
  lemma MssMore(F: set<Clause>, B: set<Lit>, a: Lit, M: set<Lit>)
    requires M <= B
    ensures IsMss(F, B + {a}, M) <==> IsMss(F, B, M) && (a in M || Refuted(F, M + {a}))
  {
    hide Refuted;
    assert a in B + {a};
  }

  lemma FirstAssumed(s: seq<Lit>)
    requires s != []
    ensures Assumed(s) == Assumed(s[1..]) + {s[0]}
  {
    assert s == [s[0]] + s[1..];
  }

  lemma CollectedMss(F: set<Clause>, T: Trail, mtcls: Option<Cid>, c: seq<Lit>, s: seq<Lit>)
    requires Gathered(F, T, mtcls, c, s)
    ensures IsMss(F, Assumed(s), Assumed(c)) <==> !Refuted(F, {})
    ensures forall x :: x in c ==> x in s
    ensures mtcls.Some? ==> Refuted(F, {})
  {
    if Refuted(F, {}) {
      RefutedMore(F, {}, Assumed(c));
    }
    hide Refuted;
    assert Assumed([]) == {};
    assert c == [] ==> Assumed(c) == {};
    forall a | a in Assumed(s) && a !in Assumed(c)
      ensures Refuted(F, Assumed(c) + {a})
    {
      assert a in s;
    }
    forall x | x in Assumed(c)
      ensures x in Assumed(s)
    {
      assert x in c && x in s;
    }
  }

  lemma SameAssumed(s: seq<Lit>, r: seq<Lit>)
    requires multiset(s) == multiset(r)
    ensures Assumed(s) == Assumed(r)
  {
    SameMembers(s, r);
    assert forall l :: l in Assumed(s) <==> l in Assumed(r);
  }

  /** Finds a maximal satisfiable subset of the assumptions and assumes them all again. After a search the result is one
      exactly if the formula alone is satisfiable. Before one the assumptions made join the first search here; if it
      fails the first assumption must not be one that could be added. */
  method MaximalSatisfiableSubset(ps: PicoSAT) returns (mss: seq<Lit>)
    requires Usable(ps) && ps.mtcls.None?
    modifies ps, ps.heap
    ensures Usable(ps) && multiset(ps.als) == old(multiset(ps.als)) && ps.F == old(ps.F)
    ensures multiset(mss) <= old(multiset(ps.als)) && |mss| <= |old(ps.als)| && (NoDup(old(ps.als)) ==> NoDup(mss))
    ensures old(ps.state.READY?) || Picks(mss, old(ps.als))
    ensures ps.mtcls.None? ==> (IsMss(ps.F, old(Assumed(ps.als)), Assumed(mss)) <==>
      && !Refuted(ps.F, {})
      && (old(ps.state.READY?) && Refuted(ps.F, old(Assumed(ps.als))) && old(ps.als) != [] ==>
          old(ps.als)[0] in mss || Refuted(ps.F, Assumed(mss) + {old(ps.als)[0]})))
    ensures old(ps.state.READY?) && Refuted(ps.F, old(Assumed(ps.als))) && old(ps.als) != [] ==>
      forall x :: x in mss ==> x in old(ps.als)[1..]
    ensures ps.mtcls.Some? ==> Refuted(ps.F, {})
  {
    hide PicoSAT.Valid, PicoSAT.Unlimited, PicoSAT.Meaning, Gathered, TopKept, Assumed, Refuted, IsMss, Picks;
    ps.AlsRange();
    ghost var als := ps.als;
    var a := new Lit[|ps.als|](i requires 0 <= i < |ps.als| reads ps => ps.als[i]);
    assert a[..] == als;
    var mssass, k;
    ghost var lost;
    mssass, k, lost := Mss(ps, a);
    LessOnce(als, mssass[..k]);
    PicksSame(mssass[..k], a[..], als);
    NothingLost(ps.F, old(ps.state.READY?), old(Pending(ps)), als);
    SameMembers(als, a[..]);
    SameAssumed(als, a[..]);
    PermKnown(ps.maxVar, als, a[..]);
    AssumedAgain(als);
    if lost == 1 {
      LostMss(ps.F, ps.t, ps.mtcls, mssass[..k], a[..]);
      SameRest(als, a[..]);
    } else {
      assert a[0..] == a[..];
      CollectedMss(ps.F, ps.t, ps.mtcls, mssass[..k], a[..]);
    }
    AssumeAll(ps, a[..]);
    mss := mssass[..k];
  }

  lemma LessOnce(s: seq<Lit>, c: seq<Lit>)
    requires multiset(c) <= multiset(s)
    ensures NoDup(s) ==> NoDup(c)
  {
    NoDupCounts(s);
    NoDupCounts(c);
  }

  lemma PicksSame(c: seq<Lit>, s: seq<Lit>, r: seq<Lit>)
    requires multiset(s) == multiset(r)
    ensures Picks(c, s) ==> Picks(c, r)
  {
  }

  lemma SameRest(s: seq<Lit>, r: seq<Lit>)
    requires multiset(s) == multiset(r) && s != [] && r != [] && s[0] == r[0]
    ensures forall x :: x in r[1..] ==> x in s[1..]
  {
    assert s == [s[0]] + s[1..] && r == [r[0]] + r[1..];
    assert multiset(s) == multiset{s[0]} + multiset(s[1..]) && multiset(r) == multiset{r[0]} + multiset(r[1..]);
    assert multiset(s[1..]) == multiset(s) - multiset{s[0]};
    SameMembers(s[1..], r[1..]);
  }

  lemma AssumedAgain(als: seq<Lit>)
    ensures als != [] ==> Assumed(als + [als[0]]) == Assumed(als)
  {
    assert als != [] ==> forall l :: l in als + [als[0]] <==> l in als;
  }

  // ---------- enumerating them ----------

  /** The literals of s outside M, in order. */
  function Missed(s: seq<Lit>, M: set<Lit>): seq<Lit> {
    if s == [] then []
    else if s[|s| - 1] in M then Missed(s[..|s| - 1], M)
    else Missed(s[..|s| - 1], M) + [s[|s| - 1]]
  }

  lemma {:induction false} MissedElems(s: seq<Lit>, M: set<Lit>)
    ensures forall l :: l in Missed(s, M) <==> l in s && l !in M
  {
    if s != [] {
      MissedElems(s[..|s| - 1], M);
      assert s == s[..|s| - 1] + [s[|s| - 1]];
    }
  }

  /** Adds the clause that one of the assumptions outside the subset res must be true. */
  method AddBlockingClause(ps: PicoSAT, a: seq<Lit>, res: seq<Lit>) returns (mcsass: seq<Lit>)
    requires Usable(ps) && !ps.state.READY? && KnownLits(ps.maxVar, a)
    modifies ps, ps.heap
    ensures Usable(ps) && ps.state.READY? && ps.als == [] && ps.maxVar == old(ps.maxVar)
    ensures mcsass == Missed(a, Assumed(res)) && ps.F == old(ps.F) + {mcsass}
    ensures TopKept(old(ps.t), ps.t)
  {
    hide PicoSAT.Valid, PicoSAT.Unlimited, TopKept;
    TopKeptSelf(ps.t);
    var msspos, mssneg := {}, {};
    for p := 0 to |res|
      invariant forall v: nat :: v in msspos <==> v in res[..p] && v > 0
      invariant forall v: nat :: v in mssneg <==> -(v as int) in res[..p] && v > 0
    {
      var lit := res[p];
      assert res[..p + 1] == res[..p] + [lit];
      if lit < 0 {
        mssneg := mssneg + {Var(lit)};
      } else if lit > 0 {
        msspos := msspos + {Var(lit)};
      }
    }
    assert res[..|res|] == res;
    mcsass := [];
    for i := 0 to |a|
      invariant ps.Valid() && ps.Unlimited() && ps.F == old(ps.F) && ps.maxVar == old(ps.maxVar)
      invariant ps.added == mcsass == Missed(a[..i], Assumed(res))
      invariant if mcsass == [] then !ps.state.READY? else ps.state.READY? && ps.als == []
      invariant TopKept(old(ps.t), ps.t)
    {
      ghost var T := ps.t;
      var lit := a[i];
      assert lit in a;
      assert a[..i + 1][..i] == a[..i];
      var inmss := (lit > 0 && Var(lit) in msspos) || (lit < 0 && Var(lit) in mssneg);
      MarkMeans(res, lit, msspos, mssneg);
      if !inmss {
        ps.Add(lit);
        TopKeptOn(old(ps.t), T, ps.t);
        mcsass := mcsass + [lit];
      }
    }
    assert a[..|a|] == a;
    ghost var T := ps.t;
    ps.Add(0);
    TopKeptOn(old(ps.t), T, ps.t);
  }

  lemma MarkMeans(res: seq<Lit>, lit: Lit, msspos: set<nat>, mssneg: set<nat>)
    requires forall v: nat :: v in msspos <==> v in res && v > 0
    requires forall v: nat :: v in mssneg <==> -(v as int) in res && v > 0
    requires lit != 0
    ensures (lit > 0 && Var(lit) in msspos) || (lit < 0 && Var(lit) in mssneg) <==> lit in Assumed(res)
  {
  }

  /** The search state after F was solved: what its subset of the assumptions tells. */
  lemma NextFound(ps: PicoSAT, F0: set<Clause>, A: set<Lit>, P: set<set<Lit>>, c: seq<Lit>, s: seq<Lit>)
    requires Usable(ps) && !ps.state.READY? && ps.mtcls.None?
    requires Gathered(ps.F, ps.t, ps.mtcls, c, s) && Assumed(s) == A
    requires Blocking(F0, A, P, ps.F) && !Refuted(F0, {})
    ensures IsMss(F0, A, Assumed(c)) && Assumed(c) !in P
  {
    if P == {} {
      BlockingSame(F0, A, ps.F);
    } else {
      var C :| C in ps.F && forall l :: l in C ==> l in A;
      NotAllFalse(ps, C, A);
    }
    hide Refuted, PicoSAT.Valid;
    CollectedMss(ps.F, ps.t, ps.mtcls, c, s);
    if c != [] {
      CollectedSat(ps.F, ps.t, ps.mtcls, c, s);
    }
    BlockedMss(F0, A, P, ps.F, Assumed(c));
  }

  /** Without a model only the empty subset is found, and all assumptions are false at top level. */
  lemma NothingGathered(F: set<Clause>, T: Trail, mtcls: Option<Cid>, c: seq<Lit>, s: seq<Lit>)
    requires Gathered(F, T, mtcls, c, s) && Refuted(F, {}) && mtcls.None?
    ensures c == [] && forall x :: x in s ==> TopFalse(T, x)
  {
    hide TopFalse, Refuted;
    if c != [] {
      CollectedSat(F, T, mtcls, c, s);
      assert false;
    }
  }

  lemma AllFalse(F: set<Clause>, T: Trail, C: Clause, s: seq<Lit>)
    requires C in F && (forall l :: l in C ==> l in s) && forall x :: x in s ==> TopFalse(T, x)
    ensures FalseAtTop(F, T)
  {
    hide TopFalse;
  }

  lemma NotAllFalse(ps: PicoSAT, C: Clause, A: set<Lit>)
    requires Usable(ps) && !ps.state.READY? && ps.mtcls.None?
    requires C in ps.F && forall l :: l in C ==> l in A
    ensures exists l :: l in A && !TopFalse(ps.t, l)
  {
    hide PicoSAT.Valid;
    ps.NoneFalsified(C);
    var l :| l in C && -l !in ps.t.lev;
    assert l in A && !TopFalse(ps.t, l);
  }

  lemma CollectedSat(F: set<Clause>, T: Trail, mtcls: Option<Cid>, c: seq<Lit>, s: seq<Lit>)
    requires Gathered(F, T, mtcls, c, s) && c != []
    ensures !Refuted(F, {})
  {
    if Refuted(F, {}) {
      RefutedMore(F, {}, Assumed(c));
      assert false;
    }
  }

  lemma BlockingSame(F0: set<Clause>, A: set<Lit>, F: set<Clause>)
    requires Blocking(F0, A, {}, F)
    ensures Refuted(F, {}) <==> Refuted(F0, {})
  {
    hide Models;
  }

  /** P are the subsets found so far and F is what F0 has become. A formula without models stays one. */
  ghost predicate Pursuing(F0: set<Clause>, A: set<Lit>, P: set<set<Lit>>, F: set<Clause>) {
    if Refuted(F0, {}) then Refuted(F, {}) else Blocking(F0, A, P, F)
  }

  /** Some clause of F is false at top level: the next search derives the empty clause. */
  ghost predicate FalseAtTop(F: set<Clause>, T: Trail) {
    exists C :: C in F && forall l :: l in C ==> TopFalse(T, l)
  }

  lemma FalseKept(F: set<Clause>, T: Trail, U: Trail)
    requires FalseAtTop(F, T) && TopKept(T, U)
    ensures FalseAtTop(F, U)
  {
    var C :| C in F && forall l :: l in C ==> TopFalse(T, l);
    assert forall l :: l in C ==> TopFalse(U, l);
  }

  lemma FalseEmpty(ps: PicoSAT)
    requires ps.Valid() && !ps.state.READY? && FalseAtTop(ps.F, ps.t)
    ensures ps.mtcls.Some?
  {
    hide PicoSAT.Valid;
    var C :| C in ps.F && forall l :: l in C ==> TopFalse(ps.t, l);
    if ps.mtcls.None? {
      ps.NoneFalsified(C);
      assert false;
    }
  }

  lemma NoMss(F: set<Clause>, A: set<Lit>, M: set<Lit>)
    requires Refuted(F, {})
    ensures !IsMss(F, A, M)
  {
    RefutedMore(F, {}, M);
  }

  /** What a call returns: the subset res with the clause mcs that blocks it. */
  ghost predicate Returned(F0: set<Clause>, A: set<Lit>, P: set<set<Lit>>, F: set<Clause>, res: seq<Lit>,
                           mcs: seq<Lit>) {
    && (IsMss(F0, A, Assumed(res)) <==> !Refuted(F0, {}))
    && (Refuted(F0, {}) ==> res == [])
    && (!Refuted(F0, {}) ==> Assumed(res) !in P && IsMcs(F0, A, Assumed(mcs)))
    && Assumed(mcs) == A - Assumed(res)
    && Pursuing(F0, A, P + {Assumed(res)}, F)
  }

  /** Finds a maximal satisfiable subset of the assumptions that was not found before, and blocks it.
      Nothing is returned once all were found. If the formula has no model and this was not found out yet, the empty
      subset is returned, once. */
  method NextMss(ps: PicoSAT, ghost F0: set<Clause>, ghost P: set<set<Lit>>)
    returns (res: Option<seq<Lit>>, mcsass: seq<Lit>)
    requires Usable(ps) && Pursuing(F0, Assumed(ps.als), P, ps.F)
    modifies ps, ps.heap
    ensures Usable(ps) && multiset(ps.als) == old(multiset(ps.als)) && ps.maxVar == old(ps.maxVar)
    ensures res.Some? ==> ps.F == old(ps.F) + {mcsass}
    ensures res.Some? ==> Returned(F0, old(Assumed(ps.als)), P, ps.F, res.value, mcsass)
    ensures res.Some? && Refuted(F0, {}) ==> FalseAtTop(ps.F, ps.t)
    ensures res.None? ==> ps.F == old(ps.F) && forall M :: IsMss(F0, old(Assumed(ps.als)), M) ==> M in P
    ensures FalseAtTop(old(ps.F), old(ps.t)) ==> res.None?
    ensures res.Some? ==> multiset(res.value) + multiset(mcsass) == old(multiset(ps.als))
    ensures res.Some? ==> forall l :: l in mcsass ==> l !in res.value
    ensures res.Some? && NoDup(old(ps.als)) ==> NoDup(mcsass) && NoDup(res.value)
  {
    hide PicoSAT.Valid, PicoSAT.Unlimited, PicoSAT.Meaning, Gathered, TopKept, Assumed, Refuted, IsMss, Blocking;
    hide Picks, Pursuing, FalseAtTop, Returned, TopFalse;
    ghost var A := Assumed(ps.als);
    mcsass := [];
    if ps.mtcls.Some? {
      ps.EmptyMeans();
      AllFound(F0, A, P, ps.F);
      return None, mcsass;
    }
    ps.AlsRange();
    ghost var als := ps.als;
    var a := new Lit[|ps.als|](i requires 0 <= i < |ps.als| reads ps => ps.als[i]);
    assert a[..] == als;
    var verdict := ps.Solve(-1);
    NotUnknown(ps, verdict);
    if FalseAtTop(old(ps.F), old(ps.t)) {
      FalseKept(ps.F, old(ps.t), ps.t);
      FalseEmpty(ps);
    }
    if ps.mtcls.Some? {
      ps.EmptyMeans();
      AllFound(F0, A, P, ps.F);
      Reassume(ps, a[..]);
      return None, mcsass;
    }
    var mssass, k;
    ghost var lost;
    mssass, k, lost := Mss(ps, a);
    assert a[0..] == a[..];
    PermKnown(ps.maxVar, als, a[..]);
    SameAssumed(als, a[..]);
    if ps.mtcls.Some? {
      ps.EmptyMeans();
      AllFound(F0, A, P, ps.F);
      Reassume(ps, a[..]);
      return None, mcsass;
    }
    mcsass := BlockFound(ps, a[..], mssass[..k], F0, A, P, als);
    res := Some(mssass[..k]);
  }

  /** Blocks the subset just found and makes the assumptions again. */
  method BlockFound(ps: PicoSAT, a: seq<Lit>, found: seq<Lit>, ghost F0: set<Clause>, ghost A: set<Lit>,
                    ghost P: set<set<Lit>>, ghost als: seq<Lit>)
    returns (mcsass: seq<Lit>)
    requires Usable(ps) && !ps.state.READY? && ps.mtcls.None? && KnownLits(ps.maxVar, a)
    requires Assumed(a) == A && multiset(a) == multiset(als)
    requires Gathered(ps.F, ps.t, ps.mtcls, found, a) && Pursuing(F0, A, P, ps.F)
    modifies ps, ps.heap
    ensures Usable(ps) && ps.als == a && ps.F == old(ps.F) + {mcsass} && ps.maxVar == old(ps.maxVar)
    ensures Returned(F0, A, P, ps.F, found, mcsass) && (Refuted(F0, {}) ==> FalseAtTop(ps.F, ps.t))
    ensures multiset(found) + multiset(mcsass) == multiset(als) && forall l :: l in mcsass ==> l !in found
    ensures NoDup(als) ==> NoDup(mcsass) && NoDup(found)
  {
    hide PicoSAT.Valid, PicoSAT.Unlimited, PicoSAT.Meaning, Gathered, TopKept, Assumed, Refuted, IsMss, Blocking;
    hide Picks, Pursuing, FalseAtTop, Returned, TopFalse;
    ghost var M := Assumed(found);
    if Refuted(F0, {}) {
      PursuingRefuted(F0, A, P, ps.F);
      NothingGathered(ps.F, ps.t, ps.mtcls, found, a);
    } else {
      PursuingBlocks(F0, A, P, ps.F);
      NextFound(ps, F0, A, P, found, a);
    }
    ghost var F1, T1 := ps.F, ps.t;
    GatheredPicks(ps.F, ps.t, ps.mtcls, found, a);
    mcsass := AddBlockingClause(ps, a, found);
    MissedSet(a, M, A);
    NextBlocked(F0, A, P, F1, found, mcsass);
    MissedCounts(a, M);
    InAssumed(found);
    Complement(a, found, mcsass);
    LessOnce(als, mcsass);
    LessOnce(als, found);
    ghost var T2 := ps.t;
    AssumeAll(ps, a);
    TopKeptOn(T1, T2, ps.t);
    if Refuted(F0, {}) {
      AllFalse(F1 + {mcsass}, T1, mcsass, a);
      FalseKept(F1 + {mcsass}, T1, ps.t);
    }
  }

  lemma PursuingRefuted(F0: set<Clause>, A: set<Lit>, P: set<set<Lit>>, F: set<Clause>)
    requires Pursuing(F0, A, P, F) && Refuted(F0, {})
    ensures Refuted(F, {})
  {
    hide Refuted;
  }

  lemma PursuingBlocks(F0: set<Clause>, A: set<Lit>, P: set<set<Lit>>, F: set<Clause>)
    requires Pursuing(F0, A, P, F) && !Refuted(F0, {})
    ensures Blocking(F0, A, P, F)
  {
    hide Refuted, Blocking;
  }

  lemma NextBlocked(F0: set<Clause>, A: set<Lit>, P: set<set<Lit>>, F: set<Clause>, res: seq<Lit>, mcs: seq<Lit>)
    requires Pursuing(F0, A, P, F)
    requires if Refuted(F0, {}) then res == [] else IsMss(F0, A, Assumed(res)) && Assumed(res) !in P
    requires (forall l :: l in mcs <==> l in A && l !in Assumed(res)) && Assumed(mcs) == A - Assumed(res)
    ensures Returned(F0, A, P, F + {mcs}, res, mcs)
  {
    hide Refuted, IsMss, Blocking, Assumed, IsMcs;
    if Refuted(F0, {}) {
      NoMss(F0, A, Assumed(res));
      RefutedGrow(F, F + {mcs}, {});
    } else {
      BlockOne(F0, A, P, F, Assumed(res), mcs);
      McsOf(F0, A, Assumed(res), Assumed(mcs));
    }
  }

  lemma RefutedGrow(F: set<Clause>, G: set<Clause>, A: set<Lit>)
    requires Refuted(F, A) && F <= G
    ensures Refuted(G, A)
  {
    forall m: Model | Models(m, G)
      ensures !Agrees(m, A)
    {
      assert Models(m, F);
    }
  }

  /** Every assumption is listed on one side. */
  lemma Complement(s: seq<Lit>, c: seq<Lit>, d: seq<Lit>)
    requires Picks(c, s) && forall l :: multiset(d)[l] == if l in c then 0 else multiset(s)[l]
    ensures multiset(c) + multiset(d) == multiset(s) && forall l :: l in d ==> l !in c
  {
    forall l
      ensures (multiset(c) + multiset(d))[l] == multiset(s)[l]
    {
      assert multiset(c)[l] + multiset(d)[l] == multiset(s)[l];
    }
    forall l | l in d
      ensures l !in c
    {
      assert multiset(d)[l] > 0;
    }
  }

  lemma AllFound(F0: set<Clause>, A: set<Lit>, P: set<set<Lit>>, F: set<Clause>)
    requires Pursuing(F0, A, P, F) && Refuted(F, {})
    ensures forall M :: IsMss(F0, A, M) ==> M in P
  {
    hide Blocking, Refuted, IsMss;
    forall M | IsMss(F0, A, M)
      ensures M in P
    {
      if Refuted(F0, {}) {
        NoMss(F0, A, M);
      } else {
        BlockedAll(F0, A, P, F, M);
      }
    }
  }

  lemma MissedSet(s: seq<Lit>, M: set<Lit>, A: set<Lit>)
    requires Assumed(s) == A
    ensures forall l :: l in Missed(s, M) <==> l in A && l !in M
    ensures Assumed(Missed(s, M)) == A - M
  {
    MissedElems(s, M);
    assert forall l :: l in Assumed(Missed(s, M)) <==> l in A - M;
  }

  lemma InAssumed(s: seq<Lit>)
    ensures forall l :: l in s <==> l in Assumed(s)
  {
  }

  lemma McsOf(F: set<Clause>, A: set<Lit>, M: set<Lit>, C: set<Lit>)
    requires IsMss(F, A, M) && C == A - M
    ensures IsMcs(F, A, C)
  {
    assert A - C == M;
  }

  /** Makes the given assumptions again after a search. */
  method Reassume(ps: PicoSAT, a: seq<Lit>)
    requires Usable(ps) && Clean(ps) && KnownLits(ps.maxVar, a) && (a == [] ==> ps.als == [])
    modifies ps, ps.heap
    ensures Usable(ps) && ps.F == old(ps.F) && ps.als == a && ps.maxVar == old(ps.maxVar)
  {
    hide PicoSAT.Valid, PicoSAT.Unlimited, TopKept;
    AssumeAll(ps, a);
  }

  /** A literal occurs in a correcting subset as often as it was assumed. */
  lemma {:induction false} MissedCounts(s: seq<Lit>, M: set<Lit>)
    ensures forall l :: multiset(Missed(s, M))[l] == if l in M then 0 else multiset(s)[l]
  {
    if s != [] {
      MissedCounts(s[..|s| - 1], M);
      assert s == s[..|s| - 1] + [s[|s| - 1]];
    }
  }

  /** So it lists every literal once exactly if no assumption outside the satisfiable subset was made twice. */
  lemma MissedOnce(s: seq<Lit>, M: set<Lit>)
    ensures NoDup(Missed(s, M)) <==> forall l :: l in M || multiset(s)[l] <= 1
  {
    var c := Missed(s, M);
    MissedCounts(s, M);
    NoDupCounts(c);
  }

  lemma RepeatedIn(F: set<Clause>, als: seq<Lit>, M: set<Lit>) returns (l: Lit)
    requires IsMss(F, Assumed(als), M) && !NoDup(Missed(als, M))
    ensures multiset(als)[l] >= 2 && InSomeMus(F, Assumed(als), l)
  {
    hide IsMss, NoDup, Missed;
    var A := Assumed(als);
    MissedOnce(als, M);
    l :| l !in M && multiset(als)[l] >= 2;
    MssInside(F, A, M);
    assert A - (A - M) == M;
    assert IsMcs(F, A, A - M) && l in A - M;
    Duality(F, A, l);
  }

  lemma RepeatedOut(F: set<Clause>, als: seq<Lit>, l: Lit) returns (M: set<Lit>)
    requires multiset(als)[l] >= 2 && InSomeMus(F, Assumed(als), l)
    ensures IsMss(F, Assumed(als), M) && !NoDup(Missed(als, M))
  {
    hide IsMss, NoDup, Missed, InSomeMus;
    var A := Assumed(als);
    Duality(F, A, l);
    var C :| IsMcs(F, A, C) && l in C;
    M := A - C;
    MissedOnce(als, M);
  }

  ghost predicate ListsTwice(F: set<Clause>, als: seq<Lit>, M: set<Lit>) {
    IsMss(F, Assumed(als), M) && !NoDup(Missed(als, M))
  }

  /** Some maximal satisfiable subset makes a call list an assumption twice exactly if one that was made twice is in
      some minimal unsatisfiable subset. */
  lemma RepeatedMissed(F: set<Clause>, als: seq<Lit>)
    ensures (exists M :: ListsTwice(F, als, M)) <==> exists l :: multiset(als)[l] >= 2 && InSomeMus(F, Assumed(als), l)
  {
    hide IsMss, NoDup, Missed, InSomeMus, Assumed;
    if M :| ListsTwice(F, als, M) {
      var l := RepeatedIn(F, als, M);
    }
    if l :| multiset(als)[l] >= 2 && InSomeMus(F, Assumed(als), l) {
      var M := RepeatedOut(F, als, l);
      assert ListsTwice(F, als, M);
    }
  }

  /** For instance, an assumption that contradicts the formula and was made twice. */
  lemma MissedTwice()
    ensures var F := {[-1]};
      && !Refuted(F, {}) && IsMss(F, Assumed([1, 1]), {}) && !NoDup(Missed([1, 1], {}))
      && multiset([1, 1])[1] >= 2 && InSomeMus(F, Assumed([1, 1]), 1)
  {
    var F, A := {[-1]}, Assumed([1, 1]);
    assert A == {1};
    var m: Model := {};
    assert -1 in [-1] && Satisfies(m, [-1]);
    assert Models(m, F) && Agrees(m, {});
    forall k: Model | Models(k, F)
      ensures !Agrees(k, {1})
    {
      assert Satisfies(k, [-1]);
    }
    assert {} + {1} == {1};
    assert IsMss(F, A, {});
    MissedOnce([1, 1], {});
    assert multiset([1, 1])[1] == 2;
    assert !NoDup(Missed([1, 1], {}));
    assert {1} - {1} == {};
    assert IsMus(F, A, {1}) && 1 in {1};
  }

  // ---------- the union of all correcting subsets ----------

  ghost function AllMss(F: set<Clause>, A: set<Lit>): set<set<Lit>> {
    set M: set<Lit> | M <= A && IsMss(F, A, M)
  }

  /** l is outside one of the subsets of P. */
  ghost predicate Marked(A: set<Lit>, P: set<set<Lit>>, l: Lit) {
    exists M :: M in P && l in A && l !in M
  }

  lemma MarkedMore(A: set<Lit>, P: set<set<Lit>>, M: set<Lit>, l: Lit)
    ensures Marked(A, P + {M}, l) <==> Marked(A, P, l) || (l in A && l !in M)
  {
    if Marked(A, P, l) {
      var N :| N in P && l in A && l !in N;
      assert N in P + {M};
    }
    if l in A && l !in M {
      assert M in P + {M};
    }
  }

  lemma MarkedAll(F: set<Clause>, A: set<Lit>, P: set<set<Lit>>, l: Lit)
    requires forall M :: M in P <==> IsMss(F, A, M)
    ensures Marked(A, P, l) <==> InSomeMus(F, A, l)
  {
    hide IsMss;
    Duality(F, A, l);
    if Marked(A, P, l) {
      var M :| M in P && l in A && l !in M;
      assert M <= A by { MssInside(F, A, M); }
      assert A - (A - M) == M;
      assert IsMcs(F, A, A - M) && l in A - M;
    }
    if InSomeMcs(F, A, l) {
      var C :| IsMcs(F, A, C) && l in C;
      assert A - C in P && l in A && l !in A - C;
    }
  }

  lemma MssInside(F: set<Clause>, A: set<Lit>, M: set<Lit>)
    requires IsMss(F, A, M)
    ensures M <= A
  {
  }

  lemma FewerLeft(all: set<set<Lit>>, P: set<set<Lit>>, M: set<Lit>)
    requires M in all && M !in P
    ensures |all - (P + {M})| < |all - P|
  {
    assert all - (P + {M}) == (all - P) - {M};
    assert M in all - P;
  }

  /** The two flags of a variable say which of its literals are marked. */
  predicate Flagged(pos: set<nat>, neg: set<nat>, l: Lit) {
    if l > 0 then Var(l) in pos else Var(l) in neg
  }

  method MarkHumus(mcs: seq<Lit>, humuspos: set<nat>, humusneg: set<nat>) returns (pos: set<nat>, neg: set<nat>)
    requires 0 !in mcs
    ensures forall l :: Flagged(pos, neg, l) <==> Flagged(humuspos, humusneg, l) || l in mcs
  {
    pos, neg := humuspos, humusneg;
    for p := 0 to |mcs|
      invariant forall l :: Flagged(pos, neg, l) <==> Flagged(humuspos, humusneg, l) || l in mcs[..p]
    {
      var lit := mcs[p];
      assert lit in mcs;
      assert mcs[..p + 1] == mcs[..p] + [lit];
      if lit < 0 {
        neg := neg + {Var(lit)};
      } else {
        pos := pos + {Var(lit)};
      }
    }
    assert mcs[..|mcs|] == mcs;
  }

  ghost predicate Rising(s: seq<Lit>) {
    forall j, k :: 0 <= j < k < |s| ==> Ptr(s[j]) < Ptr(s[k])
  }

  lemma RisingPush(s: seq<Lit>, l: Lit, bound: nat)
    requires Rising(s) && (forall j :: 0 <= j < |s| ==> Ptr(s[j]) < bound) && bound <= Ptr(l)
    ensures Rising(s + [l]) && forall j :: 0 <= j < |s| + 1 ==> Ptr((s + [l])[j]) < Ptr(l) + 1
    ensures forall k :: k in s + [l] <==> k in s || k == l
  {
    hide Ptr;
    var t := s + [l];
    assert t[|s|] == l;
  }

  /** Lists the marked literals, by variables. */
  method ListHumus(maxVar: nat, pos: set<nat>, neg: set<nat>) returns (humus: seq<Lit>)
    ensures forall l :: l in humus <==> Flagged(pos, neg, l) && 1 <= Var(l) <= maxVar
    ensures Rising(humus)
  {
    hide Rising;
    humus := [];
    assert Rising([]) by { RisingNone(); }
    for i := 1 to maxVar + 1
      invariant forall l :: l in humus <==> Flagged(pos, neg, l) && 1 <= Var(l) < i
      invariant Rising(humus) && forall j :: 0 <= j < |humus| ==> Ptr(humus[j]) < 2 * i
    {
      if i in pos {
        RisingPush(humus, i, 2 * i);
        humus := humus + [i];
      }
      if i in neg {
        RisingPush(humus, -i, 2 * i + 1);
        humus := humus + [-i];
      }
    }
  }

  lemma RisingNone()
    ensures Rising([])
  {
  }

  /** The subsets that may be returned: of a formula without models, only the empty one. */
  ghost function Returnable(F: set<Clause>, A: set<Lit>): set<set<Lit>> {
    if Refuted(F, {}) then {{}} else AllMss(F, A)
  }

  /** The enumeration after the subsets of P were returned. */
  ghost predicate Enumerating(F0: set<Clause>, A: set<Lit>, P: set<set<Lit>>, F: set<Clause>, T: Trail) {
    && Pursuing(F0, A, P, F) && P <= Returnable(F0, A)
    && (Refuted(F0, {}) && P != {} ==> FalseAtTop(F, T))
  }

  lemma EnumerateNone(F: set<Clause>, A: set<Lit>, T: Trail)
    ensures Enumerating(F, A, {}, F, T)
  {
    hide Refuted, Blocking, FalseAtTop;
    BlockingNone(F, A);
  }

  lemma EnumeratePursues(F0: set<Clause>, A: set<Lit>, P: set<set<Lit>>, F: set<Clause>, T: Trail)
    requires Enumerating(F0, A, P, F, T)
    ensures Pursuing(F0, A, P, F)
  {
  }

  lemma EnumerateMore(F0: set<Clause>, A: set<Lit>, P: set<set<Lit>>, F: set<Clause>, T: Trail,
                      F1: set<Clause>, T1: Trail, res: seq<Lit>, mcs: seq<Lit>)
    requires Enumerating(F0, A, P, F, T) && !FalseAtTop(F, T)
    requires Returned(F0, A, P, F1, res, mcs) && (Refuted(F0, {}) ==> FalseAtTop(F1, T1))
    ensures Enumerating(F0, A, P + {Assumed(res)}, F1, T1)
    ensures Assumed(res) in Returnable(F0, A) && Assumed(res) !in P
    ensures Assumed(mcs) == A - Assumed(res)
  {
    hide Refuted, Pursuing, FalseAtTop, IsMss, IsMcs;
    if Refuted(F0, {}) {
      assert Assumed([]) == {};
    } else {
      assert Assumed(res) <= A by { MssInside(F0, A, Assumed(res)); }
    }
  }

  /** At the end all maximal satisfiable subsets were returned, and none that is not returnable. */
  lemma EnumerateAll(F0: set<Clause>, A: set<Lit>, P: set<set<Lit>>, l: Lit)
    requires P <= Returnable(F0, A) && forall M :: IsMss(F0, A, M) ==> M in P
    ensures !Refuted(F0, {}) ==> (Marked(A, P, l) <==> InSomeMus(F0, A, l))
    ensures Refuted(F0, {}) ==> !InSomeMus(F0, A, l) && (Marked(A, P, l) <==> P != {} && l in A)
  {
    hide Refuted, IsMss, InSomeMus;
    if !Refuted(F0, {}) {
      MarkedAll(F0, A, P, l);
    } else {
      NotInMus(F0, A, l);
      if P != {} {
        assert (forall M :: M !in P) ==> P == {};
        assert {} in P;
      }
    }
  }

  lemma NotInMus(F: set<Clause>, A: set<Lit>, l: Lit)
    requires Refuted(F, {})
    ensures !InSomeMus(F, A, l)
  {
    forall U | IsMus(F, A, U)
      ensures l !in U
    {
      RefutedMore(F, {}, U - {l});
    }
  }

  /** Enumerates all minimal correcting subsets: their union is the union of all minimal unsatisfiable subsets.
      If the formula has no model, its one minimal unsatisfiable subset is empty, but all assumptions may be listed. */
  method Humus(ps: PicoSAT) returns (humus: seq<Lit>)
    requires Usable(ps)
    modifies ps, ps.heap
    ensures Usable(ps) && Rising(humus) && multiset(ps.als) == old(multiset(ps.als))
    ensures old(ps.F) <= ps.F && forall C, l :: C in ps.F && C !in old(ps.F) && l in C ==> l in old(ps.als)
    ensures (forall l :: l in humus <==> InSomeMus(old(ps.F), old(Assumed(ps.als)), l)) <==>
      (Refuted(old(ps.F), {}) ==> humus == [])
    ensures Refuted(old(ps.F), {}) ==> humus == [] || forall l :: l in humus <==> l in old(ps.als)
  {
    hide PicoSAT.Valid, PicoSAT.Unlimited, Assumed, Refuted, IsMss, IsMcs, Blocking, InSomeMus, Marked, Flagged, Rising;
    hide Enumerating, Returned, Returnable, FalseAtTop, Pursuing;
    ghost var F0, A := ps.F, Assumed(ps.als);
    ghost var P: set<set<Lit>> := {};
    ghost var all := Returnable(F0, A);
    EnumerateNone(F0, A, ps.t);
    ps.AlsRange();
    AssumedRange(ps.maxVar, ps.als);
    var humuspos, humusneg := {}, {};
    NoneMarked(A);
    var more := true;
    while more
      invariant Usable(ps) && multiset(ps.als) == old(multiset(ps.als)) && ps.maxVar == old(ps.maxVar)
      invariant F0 <= ps.F && forall C, l :: C in ps.F && C !in F0 && l in C ==> l in old(ps.als)
      invariant P <= all && (more ==> Enumerating(F0, A, P, ps.F, ps.t))
      invariant forall l :: Flagged(humuspos, humusneg, l) <==> Marked(A, P, l)
      invariant !more ==> forall M :: IsMss(F0, A, M) ==> M in P
      decreases more, |all - P|
    {
      ghost var F, T := ps.F, ps.t;
      SameAssumed(old(ps.als), ps.als);
      EnumeratePursues(F0, A, P, F, T);
      var res, mcs := NextMss(ps, F0, P);
      if res.None? {
        more := false;
      } else {
        ghost var M := Assumed(res.value);
        MissedAssumed(old(ps.als), res.value, mcs);
        EnumerateMore(F0, A, P, F, T, ps.F, ps.t, res.value, mcs);
        FewerLeft(all, P, M);
        McsRange(ps.maxVar, A, M, mcs);
        humuspos, humusneg := MarkHumus(mcs, humuspos, humusneg);
        MarkedAfter(A, P, M, mcs);
        P := P + {M};
      }
    }
    humus := ListHumus(ps.maxVar, humuspos, humusneg);
    forall l
      ensures l in humus <==> Marked(A, P, l)
    {
      MarkedRange(ps.maxVar, A, P, l);
    }
    HumusIs(F0, A, old(ps.als), P, humus);
  }

  lemma MissedAssumed(als: seq<Lit>, res: seq<Lit>, mcs: seq<Lit>)
    requires multiset(res) + multiset(mcs) == multiset(als)
    ensures forall l :: l in mcs ==> l in als
  {
    forall l | l in mcs
      ensures l in als
    {
      assert (multiset(res) + multiset(mcs))[l] > 0;
    }
  }

  lemma HumusIs(F0: set<Clause>, A: set<Lit>, als: seq<Lit>, P: set<set<Lit>>, humus: seq<Lit>)
    requires A == Assumed(als) && P <= Returnable(F0, A) && forall M :: IsMss(F0, A, M) ==> M in P
    requires forall l :: l in humus <==> Marked(A, P, l)
    ensures (forall l :: l in humus <==> InSomeMus(F0, A, l)) <==> (Refuted(F0, {}) ==> humus == [])
    ensures Refuted(F0, {}) ==> humus == [] || forall l :: l in humus <==> l in als
  {
    hide Refuted, IsMss, InSomeMus, Marked, Returnable;
    forall l
      ensures !Refuted(F0, {}) ==> (l in humus <==> InSomeMus(F0, A, l))
      ensures Refuted(F0, {}) ==> !InSomeMus(F0, A, l) && (l in humus <==> P != {} && l in als)
    {
      EnumerateAll(F0, A, P, l);
    }
    if humus != [] {
      var l := humus[0];
      assert l in humus;
      assert Refuted(F0, {}) ==> !InSomeMus(F0, A, l);
    }
  }

  lemma AssumedRange(n: nat, s: seq<Lit>)
    requires forall l :: l in s ==> 1 <= Var(l) <= n
    ensures forall l :: l in Assumed(s) ==> 1 <= Var(l) <= n
  {
  }

  lemma NoneMarked(A: set<Lit>)
    ensures forall l :: Flagged({}, {}, l) <==> Marked(A, {}, l)
  {
  }

  lemma McsRange(n: nat, A: set<Lit>, M: set<Lit>, mcs: seq<Lit>)
    requires Assumed(mcs) == A - M && forall l :: l in A ==> 1 <= Var(l) <= n
    ensures 0 !in mcs
  {
    assert 0 in mcs ==> 0 in Assumed(mcs);
  }

  lemma MarkedAfter(A: set<Lit>, P: set<set<Lit>>, M: set<Lit>, mcs: seq<Lit>)
    requires Assumed(mcs) == A - M
    ensures forall l :: Marked(A, P + {M}, l) <==> Marked(A, P, l) || l in mcs
  {
    forall l
      ensures Marked(A, P + {M}, l) <==> Marked(A, P, l) || l in mcs
    {
      MarkedMore(A, P, M, l);
      assert l in mcs <==> l in Assumed(mcs);
    }
  }

  lemma MarkedRange(n: nat, A: set<Lit>, P: set<set<Lit>>, l: Lit)
    requires forall k :: k in A ==> 1 <= Var(k) <= n
    ensures Marked(A, P, l) ==> 1 <= Var(l) <= n
  {
  }

  // ---------- minimal unsatisfiable subsets ----------

  /** The literals of work that are not redundant, in order, leaving out position i. */
  function Kept(work: seq<Lit>, redundant: seq<int>, i: int): seq<Lit>
    requires |redundant| == |work|
  {
    if work == [] then []
    else
      var n := |work| - 1;
      Kept(work[..n], redundant[..n], i) + if redundant[n] == 0 && n != i then [work[n]] else []
  }

  ghost predicate KeptAt(work: seq<Lit>, redundant: seq<int>, i: int, x: Lit)
    requires |redundant| == |work|
  {
    exists j :: 0 <= j < |work| && redundant[j] == 0 && j != i && work[j] == x
  }

  lemma {:induction false} KeptElems(work: seq<Lit>, redundant: seq<int>, i: int)
    requires |redundant| == |work|
    ensures forall x :: x in Kept(work, redundant, i) <==> KeptAt(work, redundant, i, x)
    ensures |Kept(work, redundant, i)| <= |work|
  {
    if work != [] {
      var n := |work| - 1;
      var w, r := work[..n], redundant[..n];
      KeptElems(w, r, i);
      forall x
        ensures x in Kept(work, redundant, i) <==> KeptAt(work, redundant, i, x)
      {
        if KeptAt(work, redundant, i, x) {
          var j :| 0 <= j < |work| && redundant[j] == 0 && j != i && work[j] == x;
          assert j < n ==> w[j] == work[j] && r[j] == redundant[j];
        }
        if KeptAt(w, r, i, x) {
          var j :| 0 <= j < n && r[j] == 0 && j != i && w[j] == x;
          assert work[j] == x && redundant[j] == 0;
        }
      }
    }
  }

  /** With more positions redundant there are fewer literals left. */
  lemma KeptFewer(work: seq<Lit>, r: seq<int>, r': seq<int>, i: int)
    requires |r| == |work| == |r'| && forall j :: 0 <= j < |work| && r'[j] == 0 ==> r[j] == 0
    ensures Assumed(Kept(work, r', i)) <= Assumed(Kept(work, r, i))
  {
    KeptElems(work, r, i);
    KeptElems(work, r', i);
    forall x | x in Kept(work, r', i)
      ensures x in Kept(work, r, i)
    {
      var j :| 0 <= j < |work| && r'[j] == 0 && j != i && work[j] == x;
      assert r[j] == 0;
    }
  }

  /** Positions in front of k count as redundant. */
  function Masked(r: seq<int>, k: nat): seq<int> {
    seq(|r|, j requires 0 <= j < |r| => if j < k then 1 else r[j])
  }

  /** Some model of F0 makes everything kept true but position j; if literals are fixed, those dropped before j are
      false in it. */
  ghost predicate Necessary(fix: bool, F0: set<Clause>, work: seq<Lit>, redundant: seq<int>, j: nat)
    requires j < |work| == |redundant|
  {
    exists m: Model ::
      && Models(m, F0) && Agrees(m, Assumed(Kept(work, redundant, j))) && !Holds(m, work[j])
      && (fix ==> FalseBefore(m, work, redundant, j))
  }

  ghost predicate FalseBefore(m: Model, work: seq<Lit>, redundant: seq<int>, j: nat)
    requires j <= |work| == |redundant|
  {
    forall k :: 0 <= k < j && redundant[k] != 0 ==> !Holds(m, work[k])
  }

  /** Kept positions before i are necessary for F0, and what is kept still contradicts F. */
  ghost predicate Shrinking(fix: bool, F0: set<Clause>, F: set<Clause>, work: seq<Lit>, redundant: seq<int>, i: int)
  {
    && |redundant| == |work| && F0 <= F
    && Refuted(F, Assumed(Kept(work, redundant, -1)))
    && forall j :: 0 <= j < i && j < |work| && redundant[j] == 0 ==> Necessary(fix, F0, work, redundant, j)
  }

  /** Unit clauses for the literals of K and against those of D. */
  ghost function Units(K: set<Lit>, D: set<Lit>): set<Clause> {
    (set l | l in K :: [l]) + (set l | l in D :: [-l])
  }

  lemma UnitsMore(K: set<Lit>, D: set<Lit>, L: set<Lit>, E: set<Lit>)
    ensures Units(K + L, D + E) == Units(K, D) + Units(L, E)
  {
  }

  ghost function KeptBefore(work: seq<Lit>, redundant: seq<int>, i: nat): set<Lit>
    requires |redundant| == |work|
  {
    set j | 0 <= j < |work| && j < i && redundant[j] == 0 :: work[j]
  }

  ghost function DroppedOf(work: seq<Lit>, r: seq<int>): set<Lit>
    requires |r| == |work|
  {
    set j | 0 <= j < |work| && r[j] == 1 :: work[j]
  }

  /** The unit clauses for the kept positions before i and against the redundant ones. */
  ghost function Fixes(work: seq<Lit>, redundant: seq<int>, i: nat): set<Clause>
    requires |redundant| == |work|
  {
    Units(KeptBefore(work, redundant, i), DroppedOf(work, redundant))
  }

  ghost function Fixed(fix: bool, F0: set<Clause>, work: seq<Lit>, redundant: seq<int>, i: nat): set<Clause>
    requires |redundant| == |work|
  {
    if fix then F0 + Fixes(work, redundant, i) else F0
  }

  /** What is assumed while position i is tried: with fixed literals only later ones. */
  function Others(fix: bool, work: seq<Lit>, redundant: seq<int>, i: nat): seq<Lit>
    requires |redundant| == |work|
  {
    Kept(work, Masked(redundant, if fix then i else 0), i)
  }

  lemma OthersElems(fix: bool, work: seq<Lit>, r: seq<int>, i: nat)
    requires |r| == |work|
    ensures forall x :: x in Others(fix, work, r, i) <==>
      exists j :: 0 <= j < |work| && r[j] == 0 && j != i && work[j] == x && (fix ==> j >= i)
  {
    hide Kept;
    var s := Masked(r, if fix then i else 0);
    KeptElems(work, s, i);
    forall x
      ensures x in Others(fix, work, r, i) <==>
        exists j :: 0 <= j < |work| && r[j] == 0 && j != i && work[j] == x && (fix ==> j >= i)
    {
      if KeptAt(work, s, i, x) {
        var j :| 0 <= j < |work| && s[j] == 0 && j != i && work[j] == x;
        assert r[j] == 0 && j != i && work[j] == x && (fix ==> j >= i);
      }
      if j :| 0 <= j < |work| && r[j] == 0 && j != i && work[j] == x && (fix ==> j >= i) {
        assert s[j] == 0 && j != i && work[j] == x;
      }
    }
  }

  /** The model found while position i is tried makes everything kept true but i. */
  lemma OthersModel(fix: bool, F0: set<Clause>, F: set<Clause>, work: seq<Lit>, r: seq<int>, i: nat, m: Model)
    requires Shrinking(fix, F0, F, work, r, i) && i < |work| && F == Fixed(fix, F0, work, r, i)
    requires Models(m, F) && Agrees(m, Assumed(Others(fix, work, r, i)))
    requires 0 !in work && forall k :: 0 <= k < i ==> r[k] == 0 || r[k] == 1
    ensures Models(m, F0) && Agrees(m, Assumed(Kept(work, r, i)))
    ensures r[i] == 0 ==> !Holds(m, work[i])
    ensures fix ==> FalseBefore(m, work, r, i)
  {
    hide Kept, Others, Necessary, Refuted, Satisfies;
    if fix {
      DroppedFalse(F0, work, r, i, m);
    }
    OthersElems(fix, work, r, i);
    KeptElems(work, r, i);
    KeptElems(work, r, -1);
    forall x | x in Kept(work, r, i)
      ensures Holds(m, x)
    {
      var j :| 0 <= j < |work| && r[j] == 0 && j != i && work[j] == x;
      if fix && j < i {
        assert work[j] in KeptBefore(work, r, i);
        assert [work[j]] in Fixes(work, r, i);
        UnitTrue(m, work[j]);
      } else {
        assert x in Assumed(Others(fix, work, r, i));
      }
    }
    if r[i] == 0 && Holds(m, work[i]) {
      forall x | x in Kept(work, r, -1)
        ensures Holds(m, x)
      {
        var j :| 0 <= j < |work| && r[j] == 0 && j != -1 && work[j] == x;
        assert j != i ==> x in Kept(work, r, i);
      }
      NotAgrees(F, Assumed(Kept(work, r, -1)), m);
      assert false;
    }
  }

  /** Literals that were fixed to false are false in every model. */
  lemma DroppedFalse(F0: set<Clause>, work: seq<Lit>, r: seq<int>, i: nat, m: Model)
    requires |r| == |work| && i <= |work| && Models(m, F0 + Fixes(work, r, i))
    requires 0 !in work && forall k :: 0 <= k < i ==> r[k] == 0 || r[k] == 1
    ensures FalseBefore(m, work, r, i)
  {
    hide Satisfies, Holds;
    forall k | 0 <= k < i && r[k] != 0
      ensures !Holds(m, work[k])
    {
      assert work[k] in DroppedOf(work, r);
      assert [-work[k]] in Fixes(work, r, i);
      UnitFalse(m, work[k]);
    }
  }

  lemma UnitFalse(m: Model, l: Lit)
    requires Satisfies(m, [-l]) && l != 0
    ensures !Holds(m, l)
  {
  }

  lemma UnitTrue(m: Model, l: Lit)
    requires Satisfies(m, [l])
    ensures Holds(m, l)
  {
  }

  lemma NotAgrees(F: set<Clause>, A: set<Lit>, m: Model)
    requires Refuted(F, A) && Models(m, F)
    ensures !Agrees(m, A)
  {
  }

  lemma ShrinkNot(fix: bool, F0: set<Clause>, F: set<Clause>, work: seq<Lit>, redundant: seq<int>, i: nat, m: Model)
    requires Shrinking(fix, F0, F, work, redundant, i) && i < |work| && F == Fixed(fix, F0, work, redundant, i)
    requires Models(m, F) && Agrees(m, Assumed(Others(fix, work, redundant, i))) && redundant[i] == 0
    requires 0 !in work && forall k :: 0 <= k < i ==> redundant[k] == 0 || redundant[k] == 1
    ensures Shrinking(fix, F0, F, work, redundant, i + 1)
  {
    OthersModel(fix, F0, F, work, redundant, i, m);
    hide Models, Agrees, Others, Kept, Refuted, Fixed, Holds, FalseBefore;
    assert Necessary(fix, F0, work, redundant, i);
    hide Necessary;
  }

  /** More clauses contradict what is kept all the more. */
  lemma ShrinkMore(fix: bool, F0: set<Clause>, F: set<Clause>, G: set<Clause>, work: seq<Lit>, r: seq<int>, i: int)
    requires Shrinking(fix, F0, F, work, r, i) && F <= G
    ensures Shrinking(fix, F0, G, work, r, i)
  {
    hide Kept, Necessary;
    RefutedGrow(F, G, Assumed(Kept(work, r, -1)));
  }

  /** i was found redundant, and with it all later positions outside the reported core. */
  lemma ShrinkBy(fix: bool, F0: set<Clause>, F: set<Clause>, work: seq<Lit>, r: seq<int>, r': seq<int>, i: nat,
                 core: set<Lit>)
    requires Shrinking(fix, F0, F, work, r, i) && i < |work| == |r'|
    requires Refuted(F, core) && core <= Assumed(Kept(work, r', -1))
    requires forall j :: 0 <= j < |work| && r'[j] == 0 ==> r[j] == 0
    requires r'[i] != 0 && forall j :: 0 <= j < i ==> r'[j] == r[j]
    ensures Shrinking(fix, F0, F, work, r', i + 1)
  {
    hide Refuted, Kept, Necessary;
    RefutedMore(F, core, Assumed(Kept(work, r', -1)));
    forall j | 0 <= j < i + 1 && r'[j] == 0
      ensures Necessary(fix, F0, work, r', j)
    {
      StillNecessary(fix, F0, work, r, r', j);
    }
  }

  lemma StillNecessary(fix: bool, F0: set<Clause>, work: seq<Lit>, r: seq<int>, r': seq<int>, j: nat)
    requires j < |work| == |r| == |r'| && Necessary(fix, F0, work, r, j)
    requires forall k :: 0 <= k < |work| && r'[k] == 0 ==> r[k] == 0
    requires forall k :: 0 <= k < j && r'[k] != 0 ==> r[k] != 0
    ensures Necessary(fix, F0, work, r', j)
  {
    hide Kept, Models, Holds;
    KeptFewer(work, r, r', j);
    var m: Model :| Models(m, F0) && Agrees(m, Assumed(Kept(work, r, j))) && !Holds(m, work[j])
      && (fix ==> FalseBefore(m, work, r, j));
    assert Agrees(m, Assumed(Kept(work, r', j)));
  }

  lemma NecessaryNot(fix: bool, F0: set<Clause>, work: seq<Lit>, r: seq<int>, j: nat)
    requires j < |work| == |r| && Necessary(fix, F0, work, r, j)
    ensures !Refuted(F0, Assumed(Kept(work, r, j)))
  {
    hide Kept, Models, Holds;
  }

  /** The core of the last search lies within what is kept. */
  lemma CoreKept(fix: bool, work: seq<Lit>, r: seq<int>, r': seq<int>, i: nat, vars: set<nat>, als: seq<Lit>)
    requires |r| == |work| == |r'| && i < |work| && als == Others(fix, work, r, i)
    requires forall j :: 0 <= j < i ==> r'[j] == r[j]
    requires forall j :: i < j < |work| ==> (r'[j] == 0 <==> r[j] == 0 && Var(work[j]) in vars)
    ensures Core(als, vars) <= Assumed(Kept(work, r', -1))
  {
    hide Kept, Others;
    OthersElems(fix, work, r, i);
    KeptElems(work, r', -1);
    forall x | x in als && Var(x) in vars
      ensures x in Kept(work, r', -1)
    {
      var j :| 0 <= j < |work| && r[j] == 0 && j != i && work[j] == x && (fix ==> j >= i);
      assert r'[j] == 0;
    }
  }

  /** When every position was tried everything kept is necessary for F0; it is minimal if it contradicts F0. */
  lemma ShrinkDone(fix: bool, F0: set<Clause>, F: set<Clause>, A: set<Lit>, work: seq<Lit>, r: seq<int>)
    requires Shrinking(fix, F0, F, work, r, |work|) && forall x :: x in work ==> x in A
    ensures forall a :: a in Assumed(Kept(work, r, -1)) ==> a in A && !Refuted(F0, Assumed(Kept(work, r, -1)) - {a})
  {
    hide Refuted, Kept, Necessary;
    var U := Assumed(Kept(work, r, -1));
    KeptElems(work, r, -1);
    forall a | a in U
      ensures a in A && !Refuted(F0, U - {a})
    {
      var j :| 0 <= j < |work| && r[j] == 0 && j != -1 && work[j] == a;
      assert a in work;
      NecessaryNot(fix, F0, work, r, j);
      KeptOther(work, r, j, a);
      if Refuted(F0, U - {a}) {
        RefutedMore(F0, U - {a}, Assumed(Kept(work, r, j)));
        assert false;
      }
    }
  }

  lemma KeptOther(work: seq<Lit>, r: seq<int>, j: nat, a: Lit)
    requires |r| == |work| && j < |work| && work[j] == a
    ensures Assumed(Kept(work, r, -1)) - {a} <= Assumed(Kept(work, r, j))
  {
    hide Kept;
    KeptElems(work, r, -1);
    KeptElems(work, r, j);
    forall x | x in Kept(work, r, -1) && x != a
      ensures x in Kept(work, r, j)
    {
      var k :| 0 <= k < |work| && r[k] == 0 && k != -1 && work[k] == x;
      assert k != j;
    }
  }

  lemma {:induction false} KeptNoDup(work: seq<Lit>, r: seq<int>, i: int)
    requires |r| == |work|
    requires forall j, k :: 0 <= j < k < |work| && r[j] == 0 && r[k] == 0 ==> work[j] != work[k]
    ensures NoDup(Kept(work, r, i))
  {
    if work != [] {
      var n := |work| - 1;
      var w, s := work[..n], r[..n];
      KeptNoDup(w, s, i);
      KeptElems(w, s, i);
      forall j | 0 <= j < n && s[j] == 0 && r[n] == 0
        ensures w[j] != work[n]
      {
        assert w[j] == work[j] && s[j] == r[j];
      }
      AppendNew(Kept(w, s, i), work[n]);
    }
  }

  lemma ShrinkOnce(fix: bool, F0: set<Clause>, F: set<Clause>, work: seq<Lit>, r: seq<int>)
    requires Shrinking(fix, F0, F, work, r, |work|)
    ensures NoDup(Kept(work, r, -1))
  {
    hide Refuted, Kept, Necessary;
    forall j, k | 0 <= j < k < |work| && r[j] == 0 && r[k] == 0
      ensures work[j] != work[k]
    {
      OnceNecessary(fix, F0, work, r, j, k);
    }
    KeptNoDup(work, r, -1);
  }

  /** A literal that is kept at two positions is necessary at neither. */
  lemma OnceNecessary(fix: bool, F0: set<Clause>, work: seq<Lit>, r: seq<int>, j: nat, k: nat)
    requires |r| == |work| && j < k < |work| && r[k] == 0 && Necessary(fix, F0, work, r, j)
    ensures work[j] != work[k]
  {
    hide Kept, Models, Holds;
    KeptElems(work, r, j);
    assert KeptAt(work, r, j, work[k]);
    assert work[k] in Assumed(Kept(work, r, j));
  }

  ghost predicate DistinctVars(work: seq<Lit>) {
    forall j, k :: 0 <= j < k < |work| ==> Var(work[j]) != Var(work[k])
  }

  /** Whether the last search reports work[j] as failed. */
  ghost predicate Reported(ps: PicoSAT, l: Lit)
    reads ps, ps.heap
  {
    ps.mtcls.None? && Var(l) in ps.failedVars
  }

  /** The refuted set the last search reports. */
  ghost function Blamed(ps: PicoSAT): set<Lit>
    reads ps, ps.heap
  {
    if ps.mtcls.Some? then {} else Core(ps.als, ps.failedVars)
  }

  ghost predicate Blames(ps: PicoSAT)
    reads ps, ps.heap
  {
    && Refuted(ps.F, Blamed(ps))
    && (ps.mtcls.None? ==> forall v :: v in ps.failedVars ==> exists a :: a in ps.als && Var(a) == v)
  }

  /** For assumptions on distinct variables, exactly the kept ones up to i are reported as failed. */
  lemma ReportedKept(ps: PicoSAT, work: seq<Lit>, r: seq<int>, i: nat, j: nat)
    requires Shrinking(false, ps.F, ps.F, work, r, i) && j <= i < |work| && DistinctVars(work)
    requires ps.als == Others(false, work, r, i) && Blames(ps)
    ensures Reported(ps, work[j]) <==> j < i && r[j] == 0
  {
    hide Refuted, Kept, Others, Necessary;
    OthersElems(false, work, r, i);
    if Reported(ps, work[j]) {
      var a :| a in ps.als && Var(a) == Var(work[j]);
      var k :| 0 <= k < |work| && r[k] == 0 && k != i && work[k] == a;
      assert k == j;
    } else if j < i && r[j] == 0 {
      KeptElems(work, r, j);
      forall x | x in Blamed(ps)
        ensures x in Kept(work, r, j)
      {
        assert x in ps.als;
        var k :| 0 <= k < |work| && r[k] == 0 && k != i && work[k] == x;
        assert k != j;
      }
      RefutedMore(ps.F, Blamed(ps), Assumed(Kept(work, r, j)));
      NecessaryNot(false, ps.F, work, r, j);
      assert false;
    }
  }

  /** The position tried is not among the assumptions. */
  lemma TriedUnreported(ps: PicoSAT, fix: bool, work: seq<Lit>, r: seq<int>, i: nat)
    requires i < |work| == |r| && DistinctVars(work) && ps.als == Others(fix, work, r, i) && Blames(ps)
    ensures !Reported(ps, work[i])
  {
    hide Refuted, Kept, Others;
    OthersElems(fix, work, r, i);
  }

  lemma BlamesNow(ps: PicoSAT)
    requires Usable(ps) && ps.state.UNSAT?
    requires ps.mtcls.None? ==> ps.extracted
    ensures Blames(ps)
  {
    hide PicoSAT.Valid, PicoSAT.Unlimited, Refuted, Core;
    if ps.mtcls.Some? {
      ps.EmptyMeans();
    } else {
      ps.CoreFailed();
    }
  }

  /** Position i is redundant, and the later ones that the last search does not report are marked. */
  method MarkUnneeded(ps: PicoSAT, work: seq<Lit>, redundant: array<int>, i: nat, fix: bool, ghost F0: set<Clause>)
    requires Usable(ps) && ps.state.UNSAT? && KnownLits(ps.maxVar, work)
    requires i < |work| == redundant.Length && redundant[i] == 0
    requires Shrinking(fix, F0, ps.F, work, redundant[..], i) && ps.als == Others(fix, work, redundant[..], i)
    requires fix || ps.F == F0
    requires forall j :: 0 <= j < redundant.Length ==> redundant[j] == 0 || redundant[j] == 1
    modifies redundant, ps`extracted, ps`failedVars
    ensures Usable(ps) && Blames(ps)
    ensures forall j :: 0 <= j < i ==> redundant[j] == old(redundant[j])
    ensures redundant[i] == 1
    ensures forall j :: i < j < |work| ==> redundant[j] == if Reported(ps, work[j]) then old(redundant[j]) else -1
  {
    hide PicoSAT.Valid, PicoSAT.Unlimited, Refuted, Kept, Others, Shrinking, Core, Blames, DistinctVars;
    ghost var r := redundant[..];
    redundant[i] := 1;
    for j := 0 to |work|
      invariant Usable(ps) && (j > 0 ==> Blames(ps) && (ps.mtcls.None? ==> ps.extracted))
      invariant forall k :: 0 <= k < |work| && (k < i || k >= j) && k != i ==> redundant[k] == r[k]
      invariant redundant[i] == 1
      invariant forall k :: i < k < j ==> redundant[k] == if Reported(ps, work[k]) then r[k] else -1
      invariant j > i + 1 ==> Blames(ps)
    {
      assert work[j] in work;
      ghost var vars := ps.failedVars;
      var failed := ps.FailedAssumption(work[j]);
      BlamesNow(ps);
      if j <= i {
        if DistinctVars(work) && !(j < i && fix) {
          if fix {
            TriedUnreported(ps, fix, work, r, i);
          } else {
            ReportedKept(ps, work, r, i, j);
          }
          assert redundant[j] == 0 <==> failed;
        }
        continue;
      }
      if !failed {
        redundant[j] := -1;
      }
    }
  }

  /** A literal is made true for good. */
  method Fix(ps: PicoSAT, l: Lit)
    requires Usable(ps) && Clean(ps) && 1 <= Var(l) <= ps.maxVar
    modifies ps, ps.heap
    ensures Usable(ps) && Clean(ps) && ps.F == old(ps.F) + {[l]} && ps.maxVar == old(ps.maxVar)
  {
    hide PicoSAT.Valid, PicoSAT.Unlimited;
    ps.Add(l);
    assert [] + [l] == [l];
    ps.Add(0);
  }

  /** The literals at position i and at the marked later ones up to j. */
  ghost function Drops(work: seq<Lit>, r: seq<int>, i: nat, j: nat): set<Lit>
    requires |r| == |work|
  {
    set k | 0 <= k < |work| && (k == i || (i < k < j && r[k] == -1)) :: work[k]
  }

  lemma DropsNext(work: seq<Lit>, r: seq<int>, i: nat, j: nat)
    requires |r| == |work| && i < j < |work|
    ensures Units({}, Drops(work, r, i, j + 1)) ==
      Units({}, Drops(work, r, i, j)) + if r[j] == -1 then {[-work[j]]} else {}
  {
    var D, E := Drops(work, r, i, j), if r[j] == -1 then {work[j]} else {};
    assert r[j] == -1 ==> work[j] in Drops(work, r, i, j + 1);
    assert Drops(work, r, i, j + 1) == D + E;
    var none: set<Lit> := {};
    UnitsMore(none, D, none, E);
    assert none + none == none;
    assert Units(none, {work[j]}) == {[-work[j]]};
  }

  lemma DropsFirst(work: seq<Lit>, r: seq<int>, i: nat)
    requires |r| == |work| && i < |work|
    ensures Units({}, Drops(work, r, i, i + 1)) == {[-work[i]]}
  {
    assert work[i] in Drops(work, r, i, i + 1);
    assert Drops(work, r, i, i + 1) == {work[i]};
  }

  lemma FixesKeep(work: seq<Lit>, r: seq<int>, i: nat)
    requires |r| == |work| && i < |work|
    ensures Fixes(work, r, i + 1) == Fixes(work, r, i) + if r[i] == 0 then {[work[i]]} else {}
  {
    var K, L, D := KeptBefore(work, r, i), if r[i] == 0 then {work[i]} else {}, DroppedOf(work, r);
    assert r[i] == 0 ==> work[i] in KeptBefore(work, r, i + 1);
    assert KeptBefore(work, r, i + 1) == K + L;
    UnitsMore(K, D, L, {});
    assert D + {} == D;
    UnitOf(work[i]);
  }

  lemma UnitOf(l: Lit)
    ensures Units({l}, {}) == {[l]} && Units({}, {}) == {}
  {
    assert l in {l};
    assert [l] in Units({l}, {});
  }

  /** r is marked at later positions that may have been redundant before. */
  ghost predicate Marking(before: seq<int>, r: seq<int>, i: nat) {
    && i < |r| == |before| && before[i] == 0 && r[i] == 1
    && (forall j :: 0 <= j < i ==> r[j] == before[j])
    && (forall j :: i < j < |r| ==> r[j] == before[j] || r[j] == -1)
    && forall j :: 0 <= j < |r| ==> before[j] == 0 || before[j] == 1
  }

  lemma FixesDrop(work: seq<Lit>, before: seq<int>, r: seq<int>, r': seq<int>, i: nat)
    requires |r| == |work| == |r'| && Marking(before, r, i)
    requires forall j :: 0 <= j < |work| ==> r'[j] == if r[j] == -1 then 1 else r[j]
    ensures Fixes(work, r', i + 1) == Fixes(work, before, i) + Units({}, Drops(work, r, i, |work|))
  {
    var K, D, E := KeptBefore(work, before, i), DroppedOf(work, before), Drops(work, r, i, |work|);
    assert KeptBefore(work, r', i + 1) == K;
    forall x | x in DroppedOf(work, r')
      ensures x in D + E
    {
      var j :| 0 <= j < |work| && r'[j] == 1 && work[j] == x;
      assert before[j] == 1 || j == i || (i < j < |work| && r[j] == -1);
    }
    forall x | x in D + E
      ensures x in DroppedOf(work, r')
    {
      var j :| 0 <= j < |work| && work[j] == x && (before[j] == 1 || j == i || (i < j < |work| && r[j] == -1));
      assert r'[j] == 1;
    }
    assert DroppedOf(work, r') == D + E;
    UnitsMore(K, D, {}, E);
    assert K + {} == K;
  }

  /** The marked positions are redundant from now on; their literals are fixed to false if asked for. */
  method DropMarked(ps: PicoSAT, work: seq<Lit>, redundant: array<int>, i: nat, fix: bool, ghost F0: set<Clause>,
                    ghost before: seq<int>)
    requires Usable(ps) && Clean(ps) && KnownLits(ps.maxVar, work)
    requires i < |work| == redundant.Length == |before| && Marking(before, redundant[..], i)
    requires ps.F == Fixed(fix, F0, work, before, i)
    modifies redundant, ps, ps.heap
    ensures Usable(ps) && Clean(ps) && ps.maxVar == old(ps.maxVar)
    ensures ps.F == Fixed(fix, F0, work, redundant[..], i + 1) && old(ps.F) <= ps.F
    ensures forall j :: 0 <= j < |work| ==> redundant[j] == if old(redundant[j]) == -1 then 1 else old(redundant[j])
  {
    hide PicoSAT.Valid, PicoSAT.Unlimited, Fixes, Drops, Units;
    ghost var r := redundant[..];
    DropsFirst(work, r, i);
    assert work[i] in work;
    if fix {
      Fix(ps, -work[i]);
    }
    for j := i + 1 to |work|
      invariant Usable(ps) && Clean(ps) && ps.maxVar == old(ps.maxVar)
      invariant ps.F == old(ps.F) + if fix then Units({}, Drops(work, r, i, j)) else {}
      invariant forall k :: 0 <= k < |work| && k < j ==> redundant[k] == if r[k] == -1 then 1 else r[k]
      invariant forall k :: j <= k < |work| ==> redundant[k] == r[k]
    {
      DropsNext(work, r, i, j);
      if redundant[j] >= 0 {
        continue;
      }
      assert work[j] in work;
      if fix {
        Fix(ps, -work[j]);
      }
      redundant[j] := 1;
    }
    FixesDrop(work, before, r, redundant[..], i);
  }

  /** The search without position i failed: it is dropped, and with it the later ones that were not needed. */
  method DropTried(ps: PicoSAT, work: seq<Lit>, redundant: array<int>, i: nat, fix: bool, ghost F0: set<Clause>)
    returns (mass: seq<Lit>)
    requires Usable(ps) && ps.state.UNSAT? && KnownLits(ps.maxVar, work)
    requires i < |work| == redundant.Length && redundant[i] == 0
    requires Shrinking(fix, F0, ps.F, work, redundant[..], i) && ps.als == Others(fix, work, redundant[..], i)
    requires ps.F == Fixed(fix, F0, work, redundant[..], i)
    requires forall j :: 0 <= j < redundant.Length ==> redundant[j] == 0 || redundant[j] == 1
    modifies redundant, ps, ps.heap
    ensures Usable(ps) && Clean(ps) && ps.maxVar == old(ps.maxVar)
    ensures ps.F == Fixed(fix, F0, work, redundant[..], i + 1) && Shrinking(fix, F0, ps.F, work, redundant[..], i + 1)
    ensures mass == Kept(work, redundant[..], -1)
    ensures forall j :: 0 <= j < redundant.Length ==> redundant[j] == 0 || redundant[j] == 1
  {
    hide PicoSAT.Valid, PicoSAT.Unlimited, Refuted, Kept, Others, Shrinking, Core, Blames, Fixes;
    ghost var r := redundant[..];
    MarkUnneeded(ps, work, redundant, i, fix, F0);
    ShrinkUnsat(ps, F0, fix, work, r, redundant[..], i);
    ghost var r', F := redundant[..], ps.F;
    mass := Remaining(work, redundant, -1, 0);
    DropMarked(ps, work, redundant, i, fix, F0, r);
    KeptSame(work, r', redundant[..]);
    ShrinkSame(fix, F0, F, work, r', redundant[..], i + 1);
    ShrinkMore(fix, F0, F, ps.F, work, redundant[..], i + 1);
  }

  /** Tries position i: searches without it and keeps it if that succeeds; else it is dropped. */
  method TryDrop(ps: PicoSAT, work: seq<Lit>, redundant: array<int>, i: nat, fix: bool, ghost F0: set<Clause>,
                 mass0: seq<Lit>)
    returns (mass: seq<Lit>)
    requires Usable(ps) && Clean(ps) && KnownLits(ps.maxVar, work) && 0 !in work
    requires i < |work| == redundant.Length && redundant[i] == 0 && mass0 == Kept(work, redundant[..], -1)
    requires ps.F == Fixed(fix, F0, work, redundant[..], i) && Shrinking(fix, F0, ps.F, work, redundant[..], i)
    requires forall j :: 0 <= j < redundant.Length ==> redundant[j] == 0 || redundant[j] == 1
    modifies redundant, ps, ps.heap
    ensures Usable(ps) && Clean(ps) && ps.maxVar == old(ps.maxVar)
    ensures ps.F == Fixed(fix, F0, work, redundant[..], i + 1)
    ensures Shrinking(fix, F0, ps.F, work, redundant[..], i + 1) && mass == Kept(work, redundant[..], -1)
    ensures forall j :: 0 <= j < redundant.Length ==> redundant[j] == 0 || redundant[j] == 1
  {
    hide PicoSAT.Valid, PicoSAT.Unlimited, PicoSAT.Meaning, Refuted, Kept, Others, Shrinking, Fixes, Pending;
    ghost var r := redundant[..];
    FixesKeep(work, r, i);
    OthersRange(fix, work, r, i);
    OthersIs(fix, work, r, i);
    var s := Remaining(work, redundant, i, if fix then i else 0);
    var sat := SolveUnder(ps, s);
    if sat {
      ShrinkSat(ps, F0, fix, work, r, i);
      if fix {
        assert work[i] in work;
        Fix(ps, work[i]);
        ShrinkMore(fix, F0, F0 + Fixes(work, r, i), ps.F, work, r, i + 1);
      }
      mass := mass0;
    } else {
      mass := DropTried(ps, work, redundant, i, fix, F0);
    }
  }

  /** Assumptions on distinct variables that only select clauses: no clause contains one of them unnegated. */
  ghost predicate Selecting(F: set<Clause>, als: seq<Lit>) {
    DistinctVars(als) && forall C, a :: C in F && a in als ==> a !in C
  }

  /** The assignment with the literals of D made false. */
  ghost function Flipped(m: Model, D: set<Lit>): Model {
    (m - D) + (set a | a in D && a < 0 :: -a)
  }

  lemma FlippedHolds(m: Model, D: set<Lit>, l: Lit)
    requires l != 0 && forall a :: a in D ==> -a !in D
    ensures l in D ==> !Holds(Flipped(m, D), l)
    ensures -l in D ==> Holds(Flipped(m, D), l)
    ensures l !in D && -l !in D ==> (Holds(Flipped(m, D), l) <==> Holds(m, l))
  {
    if -l in D && -l < 0 {
      assert -(-l) in Flipped(m, D);
    }
    if l in D && l < 0 {
      assert -l in Flipped(m, D);
    }
  }

  /** For selecting assumptions fixing the dropped ones to false changes nothing for the kept ones. */
  lemma SelectedModel(F: set<Clause>, als: seq<Lit>, K: set<Lit>, D: set<Lit>, m: Model)
    requires Selecting(F, als) && 0 !in als && K + D <= Assumed(als) && K !! D
    requires (forall C :: C in F ==> 0 !in C) && Models(m, F) && Agrees(m, K)
    ensures Models(Flipped(m, D), F + Units(K, D)) && Agrees(Flipped(m, D), K)
  {
    DistinctLits(als);
    SelectedApart(als, K, D);
    hide Holds, Flipped, Satisfies, DistinctVars;
    forall l | l in K
      ensures Holds(Flipped(m, D), l)
    {
      FlippedHolds(m, D, l);
    }
    forall C | C in F + Units(K, D)
      ensures Satisfies(Flipped(m, D), C)
    {
      if C in F {
        SelectedClause(m, D, C);
      } else if l :| l in K && C == [l] {
        UnitSatisfied(Flipped(m, D), l);
      } else {
        var l :| l in D && C == [-l];
        FlippedHolds(m, D, -l);
        UnitSatisfied(Flipped(m, D), -l);
      }
    }
  }

  lemma SelectedApart(als: seq<Lit>, K: set<Lit>, D: set<Lit>)
    requires 0 !in als && K + D <= Assumed(als) && K !! D
    requires forall a, b :: a in als && b in als && a != b ==> Var(a) != Var(b)
    ensures forall a :: a in D ==> a in als && a != 0 && -a !in D && a !in K && -a !in K
    ensures forall a :: a in K ==> a != 0 && -a !in D && a !in D
  {
    forall a | a in K + D
      ensures a in als && -a !in K + D
    {
      assert a in Assumed(als);
      assert -a in K + D ==> -a in Assumed(als);
      assert Var(a) == Var(-a);
    }
  }

  lemma SelectedClause(m: Model, D: set<Lit>, C: Clause)
    requires Satisfies(m, C) && 0 !in C && (forall a :: a in D ==> a !in C) && forall a :: a in D ==> -a !in D
    ensures Satisfies(Flipped(m, D), C)
  {
    hide Flipped;
    var l :| l in C && Holds(m, l);
    FlippedHolds(m, D, l);
    hide Holds;
    assert l in C && Holds(Flipped(m, D), l);
  }

  lemma UnitSatisfied(m: Model, l: Lit)
    requires Holds(m, l)
    ensures Satisfies(m, [l])
  {
    assert l in [l];
  }

  lemma DistinctLits(als: seq<Lit>)
    requires DistinctVars(als)
    ensures NoDup(als)
    ensures forall a, b :: a in als && b in als && a != b ==> Var(a) != Var(b)
  {
    forall a, b | a in als && b in als && a != b
      ensures Var(a) != Var(b)
    {
      var j :| 0 <= j < |als| && als[j] == a;
      var k :| 0 <= k < |als| && als[k] == b;
      assert Var(als[j]) != Var(als[k]) by { assert j < k || k < j; }
    }
  }

  /** So what contradicts the formula after fixing did so before. */
  lemma SelectedRefuted(F: set<Clause>, als: seq<Lit>, K: set<Lit>, D: set<Lit>)
    requires Selecting(F, als) && 0 !in als && K + D <= Assumed(als) && K !! D && forall C :: C in F ==> 0 !in C
    requires Refuted(F + Units(K, D), K)
    ensures Refuted(F, K)
  {
    hide Models, Agrees, Units, Selecting, Flipped;
    forall m: Model | Models(m, F)
      ensures !Agrees(m, K)
    {
      if Agrees(m, K) {
        SelectedModel(F, als, K, D, m);
        NotAgrees(F + Units(K, D), K, Flipped(m, D));
      }
    }
  }

  lemma DistinctSelecting(F: set<Clause>, als: seq<Lit>)
    requires Selecting(F, als)
    ensures NoDup(als)
  {
  }

  lemma KeptDisjoint(work: seq<Lit>, r: seq<int>)
    requires |r| == |work| && NoDup(work)
    ensures Assumed(Kept(work, r, -1)) !! DroppedOf(work, r)
  {
    hide Kept;
    KeptElems(work, r, -1);
    forall x | x in Assumed(Kept(work, r, -1))
      ensures x !in DroppedOf(work, r)
    {
      var j :| 0 <= j < |work| && r[j] == 0 && j != -1 && work[j] == x;
      assert forall k :: 0 <= k < |work| && r[k] == 1 ==> k < j || j < k;
    }
  }

  /** Some model of F makes all of K true but l; if literals are fixed, the assumptions of D made before l are false in
      it: so l was needed when it was tried. */
  ghost predicate NeededThen(fix: bool, F: set<Clause>, als: seq<Lit>, K: set<Lit>, D: set<Lit>, l: Lit) {
    exists m: Model :: Models(m, F) && Agrees(m, K - {l}) && !Holds(m, l) && (fix ==> DroppedBefore(m, als, D, l))
  }

  ghost predicate DroppedBefore(m: Model, als: seq<Lit>, D: set<Lit>, l: Lit) {
    forall p, q :: 0 <= p < q < |als| && als[p] in D && als[q] == l ==> !Holds(m, als[p])
  }

  /** Every literal that is kept was needed when it was tried. */
  lemma KeptNeeded(fix: bool, F0: set<Clause>, F: set<Clause>, als: seq<Lit>, R: set<Lit>, work: seq<Lit>, r: seq<int>,
                   l: Lit)
    requires Shrinking(fix, F0, F, work, r, |work|) && work == Without(als, R) && NoDup(als)
    requires l in Kept(work, r, -1)
    ensures NeededThen(fix, F0, als, Assumed(Kept(work, r, -1)), DroppedOf(work, r), l)
  {
    hide Kept, Refuted, Models, Holds, Without, Agrees, DroppedOf;
    var K := Assumed(Kept(work, r, -1));
    KeptElems(work, r, -1);
    var j :| 0 <= j < |work| && r[j] == 0 && j != -1 && work[j] == l;
    assert Necessary(fix, F0, work, r, j);
    var m: Model :| Models(m, F0) && Agrees(m, Assumed(Kept(work, r, j))) && !Holds(m, work[j])
      && (fix ==> FalseBefore(m, work, r, j));
    KeptOther(work, r, j, l);
    AgreesLess(m, K - {l}, Assumed(Kept(work, r, j)));
    if fix {
      BeforeInAls(m, als, R, work, r, j);
    }
  }

  lemma AgreesLess(m: Model, A: set<Lit>, B: set<Lit>)
    requires A <= B && Agrees(m, B)
    ensures Agrees(m, A)
  {
  }

  lemma BeforeInAls(m: Model, als: seq<Lit>, R: set<Lit>, work: seq<Lit>, r: seq<int>, j: nat)
    requires work == Without(als, R) && NoDup(als) && j < |work| == |r| && FalseBefore(m, work, r, j)
    ensures DroppedBefore(m, als, DroppedOf(work, r), work[j])
  {
    hide Without, Holds;
    WithoutElems(als, R);
    forall p, q | 0 <= p < q < |als| && als[p] in DroppedOf(work, r) && als[q] == work[j]
      ensures !Holds(m, als[p])
    {
      var k :| 0 <= k < |work| && r[k] == 1 && work[k] == als[p];
      assert als[p] in work && als[q] in work;
      var i', j' := WithoutOrder(als, R, p, q);
      assert i' == k && j' == j;
    }
  }

  /** Shrinks the failed assumptions of the last search to ones that are all necessary, and fails on these again. They
      are a minimal unsatisfiable subset unless they do not contradict the formula any more. This can happen only if
      literals are fixed, the kept ones to true and the dropped ones to false, and not all assumptions only select
      clauses. */
  method MusAssumptions(ps: PicoSAT, fix: bool) returns (mass: seq<Lit>, ghost dropped: set<Lit>)
    requires Usable(ps) && ps.state.UNSAT?
    modifies ps, ps.heap
    ensures Usable(ps) && ps.state.UNSAT? && ps.als == mass && NoDup(mass) && Refuted(ps.F, Assumed(mass))
    ensures ps.F == old(ps.F) + if fix then Units(Assumed(mass), dropped) else {}
    ensures Assumed(mass) + dropped <= old(Assumed(ps.als)) && Refuted(old(ps.F), Assumed(mass) + dropped)
    ensures forall l :: l in mass ==> !Refuted(old(ps.F), Assumed(mass) - {l})
    ensures NoDup(old(ps.als)) ==> InOrder(mass, old(ps.als))
    ensures NoDup(old(ps.als)) ==>
      forall l :: l in mass ==> NeededThen(fix, old(ps.F), old(ps.als), Assumed(mass), dropped, l)
    ensures !fix || Selecting(old(ps.F), old(ps.als)) ==> IsMus(old(ps.F), old(Assumed(ps.als)), Assumed(mass))
    ensures IsMus(old(ps.F), old(Assumed(ps.als)), Assumed(mass)) <==> Refuted(old(ps.F), Assumed(mass))
  {
    hide PicoSAT.Valid, PicoSAT.Unlimited, PicoSAT.Meaning, Refuted, Kept, Others, Shrinking, Core, Blames, Assumed;
    hide IsMus, Fixes, Units, Selecting, NeededThen, Without, Necessary, Pending, InOrder;
    ghost var als, F0 := ps.als, ps.F;
    ps.AlsRange();
    ps.FormulaRange();
    mass := ps.FailedAssumptions();
    var work := mass;
    ghost var unfailed := FailedOrder(ps, work);
    assert 0 !in work by { assert 0 in work ==> 1 <= Var(0); }
    var redundant := new int[|work|](_ => 0);
    NothingDropped(fix, F0, work, redundant[..]);
    for i := 0 to |work|
      invariant Usable(ps) && Clean(ps) && ps.maxVar == old(ps.maxVar)
      invariant ps.F == Fixed(fix, F0, work, redundant[..], i)
      invariant Shrinking(fix, F0, ps.F, work, redundant[..], i)
      invariant mass == Kept(work, redundant[..], -1)
      invariant forall j :: 0 <= j < redundant.Length ==> redundant[j] == 0 || redundant[j] == 1
    {
      if redundant[i] != 0 {
        FixesKeep(work, redundant[..], i);
        ShrinkSkip(fix, F0, ps.F, work, redundant[..], i);
        continue;
      }
      mass := TryDrop(ps, work, redundant, i, fix, F0, mass);
    }
    dropped := DroppedOf(work, redundant[..]);
    ShrinkFinal(fix, F0, ps.F, als, work, redundant[..]);
    AllNeeded(fix, F0, ps.F, als, unfailed, work, redundant[..]);
    KeptInOrder(als, unfailed, work, redundant[..]);
    FixesAll(work, redundant[..]);
    if fix && Selecting(F0, als) {
      DistinctSelecting(F0, als);
      KeptDisjoint(work, redundant[..]);
      SelectedRefuted(F0, als, Assumed(mass), dropped);
    }
    KeptRange(ps.maxVar, work, redundant[..], -1);
    FailAgain(ps, mass);
  }

  /** The search fails again on assumptions that contradict the formula. */
  method FailAgain(ps: PicoSAT, s: seq<Lit>)
    requires Usable(ps) && Clean(ps) && KnownLits(ps.maxVar, s) && Refuted(ps.F, Assumed(s))
    modifies ps, ps.heap
    ensures Usable(ps) && ps.state.UNSAT? && ps.als == s && ps.F == old(ps.F)
  {
    hide PicoSAT.Valid, PicoSAT.Unlimited, PicoSAT.Meaning, Refuted, Assumed, Pending;
    var sat := SolveUnder(ps, s);
    StillUnsat(ps, s, sat);
    if ps.mtcls.None? && !ps.extracted {
      ps.ExtractAllFailedAssumptions();
    }
  }

  /** The literals of c occur in s in this order. */
  ghost predicate InOrder(c: seq<Lit>, s: seq<Lit>) {
    exists R: set<Lit> :: c == Without(s, R)
  }

  lemma {:induction false} KeptIs(work: seq<Lit>, r: seq<int>, D: set<Lit>)
    requires |r| == |work| && forall j :: 0 <= j < |work| ==> (r[j] != 0 <==> work[j] in D)
    ensures Kept(work, r, -1) == Without(work, D)
  {
    hide Without;
    if work != [] {
      var n := |work| - 1;
      KeptIs(work[..n], r[..n], D);
      WithoutStep(work[..n], work[n], D);
      assert work == work[..n] + [work[n]];
    } else {
      WithoutNone(D);
    }
  }

  lemma KeptInOrder(als: seq<Lit>, R: set<Lit>, work: seq<Lit>, r: seq<int>)
    requires |r| == |work| && work == Without(als, R) && forall j :: 0 <= j < |r| ==> r[j] == 0 || r[j] == 1
    ensures NoDup(als) ==> InOrder(Kept(work, r, -1), als)
  {
    hide Kept, Without;
    if NoDup(als) {
      WithoutElems(als, R);
      var D := DroppedOf(work, r);
      forall j | 0 <= j < |work|
        ensures r[j] != 0 <==> work[j] in D
      {
        if work[j] in D {
          var k :| 0 <= k < |work| && r[k] == 1 && work[k] == work[j];
          assert k == j;
        }
      }
      KeptIs(work, r, D);
      WithoutBoth(als, R, D);
    }
  }

  lemma FailedOrder(ps: PicoSAT, fals: seq<Lit>) returns (R: set<Lit>)
    requires fals == if ps.mtcls.Some? then [] else Without(ps.als, ps.Unfailed())
    ensures fals == Without(ps.als, R)
  {
    if ps.mtcls.Some? {
      R := set a | a in ps.als;
      WithoutAll(ps.als, R);
    } else {
      R := ps.Unfailed();
    }
  }

  lemma AllNeeded(fix: bool, F0: set<Clause>, F: set<Clause>, als: seq<Lit>, R: set<Lit>, work: seq<Lit>, r: seq<int>)
    requires Shrinking(fix, F0, F, work, r, |work|) && work == Without(als, R)
    ensures NoDup(als) ==> forall l :: l in Kept(work, r, -1) ==>
      NeededThen(fix, F0, als, Assumed(Kept(work, r, -1)), DroppedOf(work, r), l)
  {
    hide Shrinking, Without, Kept, NeededThen, Assumed;
    SameLength(fix, F0, F, work, r, |work|);
    if NoDup(als) {
      forall l | l in Kept(work, r, -1)
        ensures NeededThen(fix, F0, als, Assumed(Kept(work, r, -1)), DroppedOf(work, r), l)
      {
        KeptNeeded(fix, F0, F, als, R, work, r, l);
      }
    }
  }

  /** The literals at the positions that are not redundant, leaving out i. */
  method Remaining(work: seq<Lit>, redundant: array<int>, i: int, from: nat) returns (s: seq<Lit>)
    requires redundant.Length == |work|
    ensures s == Kept(work, Masked(redundant[..], from), i)
    ensures from == 0 ==> s == Kept(work, redundant[..], i)
  {
    s := [];
    ghost var r := Masked(redundant[..], from);
    for j := 0 to |work|
      invariant s == Kept(work[..j], r[..j], i)
    {
      assert work[..j + 1][..j] == work[..j] && r[..j + 1][..j] == r[..j];
      if i != j && j >= from && redundant[j] == 0 {
        s := s + [work[j]];
      }
    }
    assert work[..|work|] == work && r[..|work|] == r;
    assert from == 0 ==> r == redundant[..];
  }

  lemma NothingDropped(fix: bool, F: set<Clause>, work: seq<Lit>, r: seq<int>)
    requires |r| == |work| && Refuted(F, Assumed(work)) && forall j :: 0 <= j < |r| ==> r[j] == 0
    ensures Shrinking(fix, F, F, work, r, 0) && Kept(work, r, -1) == work && Fixes(work, r, 0) == {}
  {
    hide Refuted, Necessary;
    AllKept(work, r);
  }

  lemma {:induction false} AllKept(work: seq<Lit>, r: seq<int>)
    requires |r| == |work| && forall j :: 0 <= j < |r| ==> r[j] == 0
    ensures Kept(work, r, -1) == work
  {
    if work != [] {
      AllKept(work[..|work| - 1], r[..|work| - 1]);
      assert work == work[..|work| - 1] + [work[|work| - 1]];
    }
  }

  lemma ShrinkSkip(fix: bool, F0: set<Clause>, F: set<Clause>, work: seq<Lit>, r: seq<int>, i: nat)
    requires Shrinking(fix, F0, F, work, r, i) && i < |work| && r[i] != 0
    ensures Shrinking(fix, F0, F, work, r, i + 1)
  {
    hide Refuted, Necessary;
  }

  lemma OthersRange(fix: bool, work: seq<Lit>, r: seq<int>, i: nat)
    requires |r| == |work|
    ensures forall l :: l in Others(fix, work, r, i) ==> l in work
  {
    KeptRange(0, work, Masked(r, if fix then i else 0), i);
  }

  lemma OthersIs(fix: bool, work: seq<Lit>, r: seq<int>, i: nat)
    requires |r| == |work|
    ensures Others(fix, work, r, i) == Kept(work, Masked(r, if fix then i else 0), i)
  {
  }

  /** Only whether a position is redundant matters for what is kept. */
  lemma {:induction false} KeptSame(work: seq<Lit>, r: seq<int>, r': seq<int>)
    requires |r| == |work| == |r'| && forall j :: 0 <= j < |work| ==> (r[j] == 0 <==> r'[j] == 0)
    ensures Kept(work, r, -1) == Kept(work, r', -1)
  {
    if work != [] {
      KeptSame(work[..|work| - 1], r[..|work| - 1], r'[..|work| - 1]);
    }
  }

  lemma ShrinkSame(fix: bool, F0: set<Clause>, F: set<Clause>, work: seq<Lit>, r: seq<int>, r': seq<int>, i: nat)
    requires Shrinking(fix, F0, F, work, r, i) && |r| == |work| == |r'|
    requires forall j :: 0 <= j < |work| ==> (r[j] == 0 <==> r'[j] == 0)
    ensures Shrinking(fix, F0, F, work, r', i)
  {
    hide Refuted, Kept, Necessary;
    KeptSame(work, r, r');
    forall j | 0 <= j < i && j < |work| && r'[j] == 0
      ensures Necessary(fix, F0, work, r', j)
    {
      StillNecessary(fix, F0, work, r, r', j);
    }
  }

  /** In the end everything kept is fixed to true and everything dropped to false. */
  lemma FixesAll(work: seq<Lit>, r: seq<int>)
    requires |r| == |work|
    ensures Fixes(work, r, |work|) == Units(Assumed(Kept(work, r, -1)), DroppedOf(work, r))
  {
    hide Kept, Units;
    KeptElems(work, r, -1);
    var K := Assumed(Kept(work, r, -1));
    forall x | x in K
      ensures x in KeptBefore(work, r, |work|)
    {
      var j :| 0 <= j < |work| && r[j] == 0 && j != -1 && work[j] == x;
      assert j < |work|;
    }
    forall x | x in KeptBefore(work, r, |work|)
      ensures x in K
    {
      var j :| 0 <= j < |work| && j < |work| && r[j] == 0 && work[j] == x;
      assert KeptAt(work, r, -1, work[j]);
    }
    assert K == KeptBefore(work, r, |work|);
  }

  lemma KeptRange(n: nat, work: seq<Lit>, r: seq<int>, i: int)
    requires |r| == |work|
    ensures forall l :: l in Kept(work, r, i) ==> l in work
  {
    KeptElems(work, r, i);
    forall l | l in Kept(work, r, i)
      ensures l in work
    {
      var j :| 0 <= j < |work| && r[j] == 0 && j != i && work[j] == l;
    }
  }

  lemma ShrinkSat(ps: PicoSAT, F0: set<Clause>, fix: bool, work: seq<Lit>, r: seq<int>, i: nat)
    requires Shrinking(fix, F0, ps.F, work, r, i) && i < |work| && r[i] == 0 && ps.F == Fixed(fix, F0, work, r, i)
    requires ps.Meaning(Satisfiable) && ps.als == Others(fix, work, r, i)
    requires 0 !in work && forall k :: 0 <= k < i ==> r[k] == 0 || r[k] == 1
    ensures Shrinking(fix, F0, ps.F, work, r, i + 1)
  {
    hide Refuted, Kept, Others, Models, Agrees, Shrinking, Fixed;
    ShrinkNot(fix, F0, ps.F, work, r, i, ps.Assignment());
  }

  lemma ShrinkUnsat(ps: PicoSAT, F0: set<Clause>, fix: bool, work: seq<Lit>, r: seq<int>, r': seq<int>, i: nat)
    requires Shrinking(fix, F0, ps.F, work, r, i) && i < |work| == |r'|
    requires ps.als == Others(fix, work, r, i) && Blames(ps)
    requires forall j :: 0 <= j < i ==> r'[j] == r[j]
    requires r'[i] != 0 && r[i] == 0
    requires forall j :: i < j < |work| ==> (r'[j] == 0 <==> r[j] == 0 && Reported(ps, work[j]))
    ensures Shrinking(fix, F0, ps.F, work, r', i + 1)
  {
    hide Refuted, Kept, Others, Shrinking, Core;
    SameLength(fix, F0, ps.F, work, r, i);
    if ps.mtcls.None? {
      CoreKept(fix, work, r, r', i, ps.failedVars, ps.als);
    }
    ShrinkBy(fix, F0, ps.F, work, r, r', i, Blamed(ps));
  }

  lemma SameLength(fix: bool, F0: set<Clause>, F: set<Clause>, work: seq<Lit>, r: seq<int>, i: int)
    requires Shrinking(fix, F0, F, work, r, i)
    ensures |r| == |work|
  {
  }

  lemma ShrinkFinal(fix: bool, F0: set<Clause>, F: set<Clause>, als: seq<Lit>, work: seq<Lit>, r: seq<int>)
    requires Shrinking(fix, F0, F, work, r, |work|) && Refuted(F0, Assumed(work)) && forall l :: l in work ==> l in als
    requires forall j :: 0 <= j < |r| ==> r[j] == 0 || r[j] == 1
    ensures var K := Assumed(Kept(work, r, -1));
      && NoDup(Kept(work, r, -1)) && Refuted(F, K)
      && K + DroppedOf(work, r) <= Assumed(als) && Refuted(F0, K + DroppedOf(work, r))
      && (forall l :: l in Kept(work, r, -1) ==> !Refuted(F0, K - {l}))
      && (IsMus(F0, Assumed(als), K) <==> Refuted(F0, K))
  {
    hide Refuted, Kept, Necessary;
    ShrinkDone(fix, F0, F, Assumed(als), work, r);
    ShrinkOnce(fix, F0, F, work, r);
    KeptElems(work, r, -1);
    var W := Assumed(Kept(work, r, -1)) + DroppedOf(work, r);
    forall x | x in Assumed(work)
      ensures x in W
    {
      var j :| 0 <= j < |work| && work[j] == x;
      if r[j] == 0 {
        assert KeptAt(work, r, -1, work[j]);
      } else {
        assert work[j] in DroppedOf(work, r);
      }
    }
    forall x | x in DroppedOf(work, r)
      ensures x in Assumed(als)
    {
      assert x in work;
    }
    RefutedMore(F0, Assumed(work), W);
    forall x | x in Assumed(Kept(work, r, -1))
      ensures x in Assumed(als)
    {
      var j :| 0 <= j < |work| && r[j] == 0 && j != -1 && work[j] == x;
      assert work[j] in work;
    }
  }

  lemma StillUnsat(ps: PicoSAT, s: seq<Lit>, sat: bool)
    requires ps.Meaning(if sat then Satisfiable else Unsatisfiable) && ps.als == s && Refuted(ps.F, Assumed(s))
    ensures !sat
  {
    hide Models, Agrees;
  }
}
