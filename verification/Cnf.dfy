/** Literals, clauses and what a set of clauses says about its models. */
module Cnf {

  /** A literal as the API sees it: a variable index, negated for the negative literal; 0 is no literal. */
  type Lit = int

  type Clause = seq<Lit>

  /** A total assignment, given by the variables it makes true. */
  type Model = set<int>

  function Var(l: Lit): nat {
    if l > 0 then l else -l
  }

  predicate Holds(m: Model, l: Lit) {
    if l > 0 then l in m else -l !in m
  }

  ghost predicate Satisfies(m: Model, c: Clause) {
    exists l :: l in c && Holds(m, l)
  }

  ghost predicate Models(m: Model, F: set<Clause>) {
    forall c :: c in F ==> Satisfies(m, c)
  }

  ghost predicate Agrees(m: Model, A: set<Lit>) {
    forall l :: l in A ==> Holds(m, l)
  }

  /** No model of F makes every literal of A true. */
  ghost predicate Refuted(F: set<Clause>, A: set<Lit>) {
    forall m: Model :: Models(m, F) ==> !Agrees(m, A)
  }

  ghost predicate Entails(F: set<Clause>, c: Clause) {
    forall m: Model :: Models(m, F) ==> Satisfies(m, c)
  }

  function Negations(c: Clause): (A: set<Lit>) {
    set l | l in c :: -l
  }

  ghost predicate SameLits(a: Clause, b: Clause) {
    forall l :: l in a <==> l in b
  }

  ghost predicate NoDup<T>(s: seq<T>) {
    forall i, j :: 0 <= i < j < |s| ==> s[i] != s[j]
  }

  ghost predicate Tautology(c: Clause) {
    exists l :: l in c && -l in c
  }

  lemma EntailsIffRefuted(F: set<Clause>, c: Clause)
    requires 0 !in c
    ensures Entails(F, c) <==> Refuted(F, Negations(c))
  {
    forall m: Model
      ensures Satisfies(m, c) <==> !Agrees(m, Negations(c))
    {
      if Satisfies(m, c) {
        var l :| l in c && Holds(m, l);
        assert -l in Negations(c) && !Holds(m, -l);
      } else {
        forall k | k in Negations(c)
          ensures Holds(m, k)
        {
          assert -k in c && !Holds(m, -k);
        }
      }
    }
    if Entails(F, c) {
      assert Refuted(F, Negations(c));
    }
    if Refuted(F, Negations(c)) {
      assert Entails(F, c);
    }
  }

  lemma EntailsMono(F: set<Clause>, G: set<Clause>, c: Clause)
    requires F <= G
    requires Entails(F, c)
    ensures Entails(G, c)
  {
    forall m: Model | Models(m, G)
      ensures Satisfies(m, c)
    {
      assert Models(m, F);
    }
  }

  lemma EntailsSame(F: set<Clause>, c: Clause, d: Clause)
    requires Entails(F, c) && SameLits(c, d)
    ensures Entails(F, d)
  {
    forall m: Model | Models(m, F)
      ensures Satisfies(m, d)
    {
      var l :| l in c && Holds(m, l);
      assert l in d;
    }
  }

  lemma EntailsMember(F: set<Clause>, c: Clause)
    requires c in F
    ensures Entails(F, c)
  {
  }

  lemma RefutedMore(F: set<Clause>, A: set<Lit>, B: set<Lit>)
    requires Refuted(F, A) && A <= B
    ensures Refuted(F, B)
  {
    hide Models;
  }

  lemma {:induction false} NoDupCounts(s: seq<int>)
    ensures NoDup(s) <==> forall x :: multiset(s)[x] <= 1
  {
    if s != [] {
      var t := s[1..];
      assert s == [s[0]] + t;
      NoDupCounts(t);
      if NoDup(s) {
        assert NoDup(t);
        assert s[0] !in t;
        assert multiset(t)[s[0]] == 0;
      }
      if forall x :: multiset(s)[x] <= 1 {
        assert multiset(s)[s[0]] == 1 + multiset(t)[s[0]];
        assert s[0] !in t;
        forall x
          ensures multiset(t)[x] <= 1
        {
          assert multiset(s)[x] <= 1;
        }
      }
    }
  }
}
