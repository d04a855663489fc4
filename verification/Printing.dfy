/** Printing the clauses a solver holds: what is printed can be read back and means the formula with its assumptions. */
module Printing {
  import opened Cnf
  import opened Trails
  import opened Inference
  import opened Watches
  import opened States
  import opened Verdicts
  import opened Importing
  import opened Equivalence
  import opened Solver
  import opened Problems
  import Dimacs

  // ---------- literals in the order of their addresses ----------

  function LitAt(i: nat): Lit {
    if i % 2 == 0 then i / 2 else -(i / 2)
  }

  lemma PtrLit(l: Lit)
    requires l != 0
    ensures LitAt(Ptr(l)) == l
  {
  }

  lemma LitPtr(i: nat)
    requires i >= 2
    ensures Ptr(LitAt(i)) == i
  {
  }

  lemma PtrLow(l: Lit)
    requires l != 0
    ensures Ptr(l) >= 2
  {
  }

  // ---------- what is printed ----------

  /** The binary clauses with a literal, as far as they are printed there: the other literal comes later. */
  function BinariesFrom(lit: Lit, others: seq<Lit>): seq<Clause> {
    if others == [] then []
    else
      var o := others[|others| - 1];
      BinariesFrom(lit, others[..|others| - 1]) + if Ptr(o) >= Ptr(lit) then [[lit, o]] else []
  }

  /** The binary clauses printed for the literals in front of index i. */
  function Binaries(impls: map<Lit, seq<Lit>>, i: nat): seq<Clause> {
    if i <= 2 then [] else Binaries(impls, i - 1) + BinariesFrom(LitAt(i - 1), At(impls, LitAt(i - 1)))
  }

  function Larges(cls: map<Cid, Clause>, stack: seq<Cid>): seq<Clause>
    requires forall c :: c in stack ==> c in cls
  {
    seq(|stack|, i requires 0 <= i < |stack| => cls[stack[i]])
  }

  function Units(als: seq<Lit>): seq<Clause> {
    seq(|als|, i requires 0 <= i < |als| => [als[i]])
  }

  ghost predicate Stacked(s: State) {
    forall c :: c in s.ocls + s.lcls ==> c in s.D.cls
  }

  /** All clauses a solver prints. */
  ghost function Printed(s: State): seq<Clause>
    requires Stacked(s)
  {
    Larges(s.D.cls, s.ocls + s.lcls) + Binaries(s.D.impls, 2 * s.n + 2) + Units(s.als)
  }

  // ---------- binary clauses are printed once ----------

  lemma {:induction false} FromCount(lit: Lit, others: seq<Lit>, a: Lit, b: Lit)
    ensures multiset(BinariesFrom(lit, others))[[a, b]] ==
      if a == lit && Ptr(b) >= Ptr(a) then multiset(others)[b] else 0
  {
    if others != [] {
      var r, o := others[..|others| - 1], others[|others| - 1];
      assert others == r + [o];
      FromCount(lit, r, a, b);
      assert [lit, o] == [a, b] <==> lit == a && o == b by {
        assert [lit, o][0] == lit && [lit, o][1] == o && [a, b][0] == a && [a, b][1] == b;
      }
    }
  }

  /** Of the two places where a binary clause is stored, exactly one prints it, each time it was added. */
  lemma {:induction false} BinaryOnce(impls: map<Lit, seq<Lit>>, i: nat, a: Lit, b: Lit)
    requires a != 0
    ensures multiset(Binaries(impls, i))[[a, b]] ==
      if 2 <= Ptr(a) < i && Ptr(a) <= Ptr(b) then multiset(At(impls, a))[b] else 0
  {
    hide Ptr, LitAt, At, BinariesFrom;
    PtrLow(a);
    if i > 2 {
      BinaryOnce(impls, i - 1, a, b);
      FromCount(LitAt(i - 1), At(impls, LitAt(i - 1)), a, b);
      PtrLit(a);
      LitPtr(i - 1);
    }
  }

  lemma {:induction false} FromShape(lit: Lit, others: seq<Lit>, C: Clause)
    requires C in BinariesFrom(lit, others)
    ensures |C| == 2 && C == [lit, C[1]] && C[1] in others
  {
    var r, o := others[..|others| - 1], others[|others| - 1];
    if C != [lit, o] {
      FromShape(lit, r, C);
    }
  }

  /** Only stored binary clauses are printed. */
  lemma {:induction false} BinaryShape(impls: map<Lit, seq<Lit>>, i: nat, C: Clause)
    requires C in Binaries(impls, i)
    ensures |C| == 2 && C == [C[0], C[1]] && C[1] in At(impls, C[0])
  {
    if C in Binaries(impls, i - 1) {
      BinaryShape(impls, i - 1, C);
    } else {
      FromShape(LitAt(i - 1), At(impls, LitAt(i - 1)), C);
    }
  }

  lemma Occurs(cs: seq<Clause>, C: Clause)
    requires multiset(cs)[C] > 0
    ensures C in cs
  {
    assert C in multiset(cs);
  }

  /** Every stored binary clause is printed. */
  lemma BinaryPrinted(n: nat, impls: map<Lit, seq<Lit>>, a: Lit, b: Lit)
    requires ImplsOk(n, impls) && b in At(impls, a)
    ensures [a, b] in Binaries(impls, 2 * n + 2) || [b, a] in Binaries(impls, 2 * n + 2)
  {
    hide Binaries, At;
    assert a in At(impls, b);
    var c, d := if Ptr(a) <= Ptr(b) then a else b, if Ptr(a) <= Ptr(b) then b else a;
    BinaryOnce(impls, 2 * n + 2, c, d);
    assert multiset(At(impls, c))[d] > 0;
    Occurs(Binaries(impls, 2 * n + 2), [c, d]);
  }

  // ---------- what the printed clauses mean ----------

  lemma InvStacked(s: State)
    requires Invariant(s, NOTHING)
    ensures Stacked(s) && ClausesOk(s.n, s.D.cls) && ImplsOk(s.n, s.D.impls)
    ensures forall l :: l in s.als ==> 1 <= Var(l) <= s.n
    ensures ClausesEntailed(s.F, s.D.cls) && ImplsEntailed(s.F, s.D.impls) && FormulaOk(s.n, s.F)
    ensures forall c :: c in s.D.cls ==> c in s.ocls + s.lcls
  {
    hide TrailInv, WatchInv, QueueOk, ConflictOk, EmptyOk, FormulaOk, TallyOk;
    hide ClausesOk, ImplsOk, ListsOk, ParkedTrue, ClausesEntailed, ImplsEntailed;
    forall c | c in s.ocls + s.lcls
      ensures c in s.D.cls
    {
      assert c in s.ocls || c in s.lcls;
    }
    forall c | c in s.D.cls
      ensures c in s.ocls + s.lcls
    {
    }
  }

  lemma PrintedParts(s: State, C: Clause)
    requires Stacked(s)
    ensures C in Printed(s) <==>
      C in Larges(s.D.cls, s.ocls + s.lcls) || C in Binaries(s.D.impls, 2 * s.n + 2) || C in Units(s.als)
  {
  }

  lemma LargePrinted(s: State, c: Cid)
    requires Stacked(s) && c in s.ocls + s.lcls
    ensures s.D.cls[c] in Printed(s)
  {
    hide Binaries;
    var st := s.ocls + s.lcls;
    var i :| 0 <= i < |st| && st[i] == c;
    assert Larges(s.D.cls, st)[i] == s.D.cls[c];
    PrintedParts(s, s.D.cls[c]);
  }

  ghost predicate Known(n: nat, C: Clause) {
    forall l :: l in C ==> 1 <= Var(l) <= n
  }

  /** A printed clause is entailed, or it is an assumption. */
  lemma PrintedSound(s: State, C: Clause)
    requires Invariant(s, NOTHING) && Stacked(s) && C in Printed(s)
    ensures Entails(s.F, C) || exists a :: a in s.als && C == [a]
    ensures Known(s.n, C)
  {
    hide Invariant, Binaries, Larges, Units, Entails, ImplsOk;
    hide ClausesOk, ClausesEntailed, ImplsEntailed, Printed, Known;
    InvStacked(s);
    PrintedParts(s, C);
    if C in Larges(s.D.cls, s.ocls + s.lcls) {
      LargeSound(s, C);
    } else if C in Binaries(s.D.impls, 2 * s.n + 2) {
      BinarySound(s.n, s.F, s.D.impls, C);
    } else {
      UnitSound(s.n, s.als, C);
    }
  }

  lemma LargeSound(s: State, C: Clause)
    requires Stacked(s) && ClausesOk(s.n, s.D.cls) && ClausesEntailed(s.F, s.D.cls)
    requires C in Larges(s.D.cls, s.ocls + s.lcls)
    ensures Entails(s.F, C) && Known(s.n, C)
  {
    hide Entails;
    var st := s.ocls + s.lcls;
    var i :| 0 <= i < |st| && C == s.D.cls[st[i]];
    assert st[i] in st;
    assert ClauseOk(s.n, C);
  }

  lemma BinarySound(n: nat, F: set<Clause>, impls: map<Lit, seq<Lit>>, C: Clause)
    requires ImplsOk(n, impls) && ImplsEntailed(F, impls) && C in Binaries(impls, 2 * n + 2)
    ensures Entails(F, C) && Known(n, C)
  {
    hide Entails, Binaries, At;
    BinaryShape(impls, 2 * n + 2, C);
    var a, b := C[0], C[1];
    assert b in At(impls, a) && C == [a, b];
    forall l | l in C
      ensures 1 <= Var(l) <= n
    {
      assert l == a || l == b;
    }
  }

  lemma UnitSound(n: nat, als: seq<Lit>, C: Clause)
    requires C in Units(als) && forall l :: l in als ==> 1 <= Var(l) <= n
    ensures (exists a :: a in als && C == [a]) && Known(n, C)
  {
    var i :| 0 <= i < |als| && C == Units(als)[i];
    var a := als[i];
    assert a in als && C == [a];
  }

  ghost predicate AllHold(m: Model, cs: seq<Clause>) {
    forall C :: C in cs ==> Satisfies(m, C)
  }

  /** What is stored is printed. */
  lemma PrintedStore(s: State, m: Model)
    requires Invariant(s, NOTHING) && Stacked(s) && AllHold(m, Printed(s))
    ensures StoreHolds(s.D, m)
  {
    InvStacked(s);
    hide Invariant, Printed, Satisfies, ImplsOk, ClausesOk, ClausesEntailed, ImplsEntailed;
    forall c | c in s.D.cls
      ensures Satisfies(m, s.D.cls[c])
    {
      LargePrinted(s, c);
    }
    forall a, b | b in At(s.D.impls, a)
      ensures Satisfies(m, [a, b])
    {
      BinaryHolds(s, m, a, b);
    }
  }

  lemma BinaryHolds(s: State, m: Model, a: Lit, b: Lit)
    requires Stacked(s) && AllHold(m, Printed(s)) && ImplsOk(s.n, s.D.impls) && b in At(s.D.impls, a)
    ensures Satisfies(m, [a, b])
  {
    hide Printed, Satisfies, ImplsOk;
    BinaryPrinted(s.n, s.D.impls, a, b);
    PrintedParts(s, [a, b]);
    PrintedParts(s, [b, a]);
    if [b, a] in Printed(s) {
      SatisfiesSame(m, [b, a], [a, b]);
    }
  }

  /** The models of the printed clauses are the models of the formula under the assumptions. */
  lemma PrintedMeans(s: State)
    requires Invariant(s, NOTHING) && Stacked(s)
    ensures forall m: Model :: AllHold(m, Printed(s)) <==> Models(m, s.F) && Agrees(m, Assumed(s.als))
  {
    hide Invariant, Printed, Satisfies, Agrees, Assumed, StoreHolds;
    forall m: Model
      ensures AllHold(m, Printed(s)) <==> Models(m, s.F) && Agrees(m, Assumed(s.als))
    {
      if Models(m, s.F) && Agrees(m, Assumed(s.als)) {
        forall C | C in Printed(s)
          ensures Satisfies(m, C)
        {
          PrintedSound(s, C);
          if a :| a in s.als && C == [a] {
            AssumedHolds(m, s.als, a);
          }
        }
      }
      if AllHold(m, Printed(s)) {
        PrintedAgrees(s, m);
        PrintedStore(s, m);
        StoreMeans(s, m);
      }
    }
  }

  lemma AssumedHolds(m: Model, als: seq<Lit>, a: Lit)
    requires a in als && Agrees(m, Assumed(als))
    ensures Satisfies(m, [a])
  {
    assert a in Assumed(als);
    assert a in [a];
  }

  lemma PrintedAgrees(s: State, m: Model)
    requires Stacked(s) && AllHold(m, Printed(s))
    ensures Agrees(m, Assumed(s.als))
  {
    hide Binaries;
    forall a | a in Assumed(s.als)
      ensures Holds(m, a)
    {
      var i :| 0 <= i < |s.als| && s.als[i] == a;
      assert Units(s.als)[i] == [a];
      PrintedParts(s, [a]);
      assert Satisfies(m, [a]);
    }
  }

  // ---------- printing ----------

  lemma {:induction false} LitsPush(C: Clause, l: Lit)
    ensures Dimacs.ShowLits(C + [l]) == Dimacs.ShowLits(C) + Dimacs.Show(l) + " "
  {
    hide Dimacs.Show, Dimacs.Decimal;
    if C == [] {
      assert [l][1..] == [];
      assert Dimacs.ShowLits([l]) == Dimacs.Show(l) + " " + [];
    } else {
      LitsPush(C[1..], l);
      assert (C + [l])[1..] == C[1..] + [l];
    }
  }

  lemma {:induction false} ClausesPush(cs: seq<Clause>, C: Clause)
    ensures Dimacs.ShowClauses(cs + [C]) == Dimacs.ShowClauses(cs) + Dimacs.ShowClause(C) + "\n"
  {
    hide Dimacs.ShowClause;
    if cs == [] {
      assert [C][1..] == [];
      assert Dimacs.ShowClauses([C]) == Dimacs.ShowClause(C) + "\n" + [];
    } else {
      ClausesPush(cs[1..], C);
      assert (cs + [C])[1..] == cs[1..] + [C];
    }
  }

  lemma PairShown(a: Lit, b: Lit)
    ensures Dimacs.ShowClause([a, b]) == Dimacs.Show(a) + " " + Dimacs.Show(b) + " 0"
  {
    hide Dimacs.Show;
    LitsPush([a], b);
    LitsPush([], a);
    assert [] + [a] == [a] && [a] + [b] == [a, b];
  }

  lemma UnitShown(a: Lit)
    ensures Dimacs.ShowClause([a]) == Dimacs.Show(a) + " 0"
  {
    hide Dimacs.Show;
    LitsPush([], a);
    assert [] + [a] == [a];
  }

  method PrintClause(text: string, C: Clause, ghost head: string, ghost cs: seq<Clause>) returns (r: string)
    requires text == head + Dimacs.ShowClauses(cs)
    ensures r == head + Dimacs.ShowClauses(cs + [C])
  {
    hide Dimacs.Show;
    r := text;
    for q := 0 to |C|
      invariant r == text + Dimacs.ShowLits(C[..q])
    {
      LitsPush(C[..q], C[q]);
      assert C[..q + 1] == C[..q] + [C[q]];
      r := r + Dimacs.Show(C[q]) + " ";
    }
    assert C[..|C|] == C;
    ClausesPush(cs, C);
    r := r + "0\n";
  }

  method CountBinaries(impls: map<Lit, seq<Lit>>, maxVar: nat) returns (n: nat)
    ensures n == |Binaries(impls, 2 * maxVar + 2)|
  {
    hide Ptr, LitAt, At;
    n := 0;
    for i := 2 to 2 * maxVar + 2
      invariant n == |Binaries(impls, i)|
    {
      var lit := LitAt(i);
      var stack := At(impls, lit);
      for q := 0 to |stack|
        invariant n == |Binaries(impls, i)| + |BinariesFrom(lit, stack[..q])|
      {
        assert stack[..q + 1][..q] == stack[..q];
        if Ptr(stack[q]) >= Ptr(lit) {
          n := n + 1;
        }
      }
      assert stack[..|stack|] == stack;
    }
  }

  method PrintBinaries(text: string, impls: map<Lit, seq<Lit>>, maxVar: nat, ghost head: string, ghost cs: seq<Clause>)
    returns (r: string)
    requires text == head + Dimacs.ShowClauses(cs)
    ensures r == head + Dimacs.ShowClauses(cs + Binaries(impls, 2 * maxVar + 2))
  {
    hide Dimacs.Show, Dimacs.ShowClause, Dimacs.ShowClauses;
    r := text;
    assert cs + Binaries(impls, 2) == cs;
    for i := 2 to 2 * maxVar + 2
      invariant r == head + Dimacs.ShowClauses(cs + Binaries(impls, i))
    {
      var lit := LitAt(i);
      r := PrintImplied(r, lit, At(impls, lit), head, cs + Binaries(impls, i));
      assert cs + Binaries(impls, i) + BinariesFrom(lit, At(impls, lit)) == cs + Binaries(impls, i + 1);
    }
  }

  method PrintImplied(text: string, lit: Lit, stack: seq<Lit>, ghost head: string, ghost cs: seq<Clause>)
    returns (r: string)
    requires text == head + Dimacs.ShowClauses(cs)
    ensures r == head + Dimacs.ShowClauses(cs + BinariesFrom(lit, stack))
  {
    hide Dimacs.Show, Dimacs.ShowClause, Dimacs.ShowClauses, Ptr;
    r := text;
    assert cs + BinariesFrom(lit, []) == cs;
    for q := 0 to |stack|
      invariant r == head + Dimacs.ShowClauses(cs + BinariesFrom(lit, stack[..q]))
    {
      var other := stack[q];
      ghost var done := cs + BinariesFrom(lit, stack[..q]);
      assert stack[..q + 1][..q] == stack[..q];
      if Ptr(other) >= Ptr(lit) {
        PairShown(lit, other);
        ClausesPush(done, [lit, other]);
        assert done + [[lit, other]] == cs + BinariesFrom(lit, stack[..q + 1]);
        r := r + Dimacs.Show(lit) + " " + Dimacs.Show(other) + " 0\n";
        assert " 0" + "\n" == " 0\n";
      } else {
        assert done == cs + BinariesFrom(lit, stack[..q + 1]);
      }
    }
    assert stack[..|stack|] == stack;
  }

  method PrintLarges(text: string, cls: map<Cid, Clause>, stack: seq<Cid>, ghost head: string) returns (r: string)
    requires forall c :: c in stack ==> c in cls
    requires text == head
    ensures r == head + Dimacs.ShowClauses(Larges(cls, stack))
  {
    hide Dimacs.ShowClause, Dimacs.ShowClauses;
    r := text;
    NothingShown(head);
    assert Larges(cls, stack[..0]) == [];
    for p := 0 to |stack|
      invariant r == head + Dimacs.ShowClauses(Larges(cls, stack[..p]))
    {
      assert stack[p] in stack;
      assert Larges(cls, stack[..p + 1]) == Larges(cls, stack[..p]) + [cls[stack[p]]];
      r := PrintClause(r, cls[stack[p]], head, Larges(cls, stack[..p]));
    }
    assert stack[..|stack|] == stack;
  }

  lemma NothingShown(head: string)
    ensures head + Dimacs.ShowClauses([]) == head
  {
  }

  method PrintUnits(text: string, als: seq<Lit>, ghost head: string, ghost cs: seq<Clause>) returns (r: string)
    requires text == head + Dimacs.ShowClauses(cs)
    ensures r == head + Dimacs.ShowClauses(cs + Units(als))
  {
    hide Dimacs.Show, Dimacs.ShowClause, Dimacs.ShowClauses;
    r := text;
    assert cs + Units(als[..0]) == cs;
    for p := 0 to |als|
      invariant r == head + Dimacs.ShowClauses(cs + Units(als[..p]))
    {
      ghost var done := cs + Units(als[..p]);
      UnitShown(als[p]);
      ClausesPush(done, [als[p]]);
      assert cs + Units(als[..p + 1]) == done + [[als[p]]];
      r := r + Dimacs.Show(als[p]) + " 0\n";
      assert " 0" + "\n" == " 0\n";
    }
    assert als[..|als|] == als;
  }

  /** Prints the clauses of the solver: the header announces as many clauses as follow, and what is printed can be read
      back as a problem with the models of the formula under the assumptions. */
  method Print(ps: PicoSAT) returns (text: string)
    requires ps.Valid() && ps.maxVar <= Dimacs.INT_MAX
    requires Stacked(ps.St()) ==> |Printed(ps.St())| < 0x1_0000_0000
    ensures Stacked(ps.St())
    ensures Dimacs.Parsed(text) == Dimacs.Ok(SATProblem(Printed(ps.St()), ps.maxVar))
    ensures forall m: Model :: AllHold(m, Printed(ps.St())) <==> Models(m, ps.F) && Agrees(m, Assumed(ps.als))
  {
    hide PicoSAT.Valid, Binaries, AllHold, Models, Agrees, Assumed, Dimacs.Show, Dimacs.ShowClauses;
    PrintReady(ps);
    var stack := ps.oclauses + ps.lclauses;
    var n := |ps.als| + |stack|;
    var binaries := CountBinaries(ps.d.impls, ps.maxVar);
    n := n + binaries;
    text := "p cnf " + Dimacs.Show(ps.maxVar) + " " + Dimacs.Show(n) + "\n";
    ghost var head := text;
    text := PrintLarges(text, ps.d.cls, stack, head);
    ghost var cs := Larges(ps.d.cls, stack);
    text := PrintBinaries(text, ps.d.impls, ps.maxVar, head, cs);
    text := PrintUnits(text, ps.als, head, cs + Binaries(ps.d.impls, 2 * ps.maxVar + 2));
    var p := SATProblem(Printed(ps.St()), ps.maxVar);
    assert text == Dimacs.Text(p);
    Dimacs.RoundTrip(p);
  }

  lemma PrintReady(ps: PicoSAT)
    requires ps.Valid()
    ensures Stacked(ps.St())
    ensures InRange(SATProblem(Printed(ps.St()), ps.maxVar))
    ensures forall m: Model :: AllHold(m, Printed(ps.St())) <==> Models(m, ps.F) && Agrees(m, Assumed(ps.als))
  {
    hide Invariant, Printed, AllHold, Models, Agrees, Assumed;
    var s := ps.St();
    assert Invariant(s, NOTHING) by {
      ValidInvariant(ps);
    }
    hide PicoSAT.Valid;
    InvStacked(s);
    PrintedMeans(s);
    forall C | C in Printed(s)
      ensures Known(s.n, C)
    {
      PrintedSound(s, C);
    }
  }

  lemma ValidInvariant(ps: PicoSAT)
    requires ps.Valid()
    ensures Invariant(ps.St(), NOTHING)
  {
    hide Invariant;
  }
}
