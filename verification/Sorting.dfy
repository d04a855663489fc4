/** The order in which a new clause lists its literals, so that its first two can be watched. */
module Sorting {
  import opened Cnf

  /** Unassigned literals come first, then assigned ones by decreasing level. Ties are left in place. */
  function Key(lev: map<Lit, nat>, dl: nat, l: Lit): int {
    if l in lev then 1 + dl - lev[l]
    else if -l in lev then 1 + dl - lev[-l]
    else 0
  }

  function Insert(lev: map<Lit, nat>, dl: nat, l: Lit, s: Clause): Clause {
    if s == [] || Key(lev, dl, l) <= Key(lev, dl, s[0]) then [l] + s
    else [s[0]] + Insert(lev, dl, l, s[1..])
  }

  function SortLits(lev: map<Lit, nat>, dl: nat, s: Clause): Clause {
    if s == [] then [] else Insert(lev, dl, s[0], SortLits(lev, dl, s[1..]))
  }

  ghost predicate Sorted(lev: map<Lit, nat>, dl: nat, s: Clause) {
    forall i, j :: 0 <= i < j < |s| ==> Key(lev, dl, s[i]) <= Key(lev, dl, s[j])
  }

  lemma {:induction false} InsertElems(lev: map<Lit, nat>, dl: nat, l: Lit, s: Clause)
    ensures multiset(Insert(lev, dl, l, s)) == multiset{l} + multiset(s)
  {
    hide Key;
    if !(s == [] || Key(lev, dl, l) <= Key(lev, dl, s[0])) {
      InsertElems(lev, dl, l, s[1..]);
      assert s == [s[0]] + s[1..];
    }
  }

  lemma {:induction false} InsertSorted(lev: map<Lit, nat>, dl: nat, l: Lit, s: Clause)
    requires Sorted(lev, dl, s)
    ensures Sorted(lev, dl, Insert(lev, dl, l, s))
  {
    hide Key;
    if !(s == [] || Key(lev, dl, l) <= Key(lev, dl, s[0])) {
      var rest := Insert(lev, dl, l, s[1..]);
      InsertSorted(lev, dl, l, s[1..]);
      InsertElems(lev, dl, l, s[1..]);
      forall i | 0 <= i < |rest|
        ensures Key(lev, dl, s[0]) <= Key(lev, dl, rest[i])
      {
        assert rest[i] in multiset(rest);
        if rest[i] != l {
          var j :| 0 <= j < |s[1..]| && s[1..][j] == rest[i];
          assert s[j + 1] == rest[i];
        }
      }
    }
  }

  lemma {:induction false} SortSorts(lev: map<Lit, nat>, dl: nat, s: Clause)
    ensures Sorted(lev, dl, SortLits(lev, dl, s))
    ensures multiset(SortLits(lev, dl, s)) == multiset(s)
  {
    if s != [] {
      SortSorts(lev, dl, s[1..]);
      InsertSorted(lev, dl, s[0], SortLits(lev, dl, s[1..]));
      InsertElems(lev, dl, s[0], SortLits(lev, dl, s[1..]));
      assert s == [s[0]] + s[1..];
    }
  }

  /** Same literals, same length, no literal twice. */
  lemma SortKeeps(lev: map<Lit, nat>, dl: nat, s: Clause)
    ensures SameLits(s, SortLits(lev, dl, s))
    ensures |SortLits(lev, dl, s)| == |s|
    ensures NoDup(s) ==> NoDup(SortLits(lev, dl, s))
    ensures |s| == 1 ==> SortLits(lev, dl, s) == s
  {
    var t := SortLits(lev, dl, s);
    SortSorts(lev, dl, s);
    assert |multiset(s)| == |s| && |multiset(t)| == |t|;
    forall l
      ensures l in s <==> l in t
    {
      assert l in s <==> l in multiset(s);
      assert l in t <==> l in multiset(t);
    }
    NoDupCounts(s);
    NoDupCounts(t);
    if |s| == 1 {
      assert s[0] in t;
    }
  }

  lemma PermSame(s: Clause, t: Clause)
    requires multiset(s) == multiset(t)
    ensures |s| == |t| && SameLits(s, t)
    ensures NoDup(s) ==> NoDup(t)
  {
    assert |multiset(s)| == |s| && |multiset(t)| == |t|;
    forall l
      ensures l in s <==> l in t
    {
      assert l in s <==> l in multiset(s);
      assert l in t <==> l in multiset(t);
    }
    NoDupCounts(s);
    NoDupCounts(t);
  }

  /** lits with the literals from position 2 to l moved up by one; the first literal fills the gap. */
  function Shifted(lits: Clause, l: nat): (r: Clause)
    requires 2 <= l < |lits|
    ensures |r| == |lits|
  {
    seq(|lits|, i requires 0 <= i < |lits| => if i == 2 then lits[0] else if 2 < i <= l then lits[i - 1] else lits[i])
  }

  lemma ShiftedStep(lits: Clause, l: nat)
    requires 2 <= l < |lits|
    ensures l + 1 < |lits| ==>
      Shifted(lits, l)[l + 1] == lits[l + 1] && Shifted(lits, l + 1) == Shifted(lits, l)[l + 1 := lits[l]]
    ensures l > 2 ==> Shifted(lits, l)[l] == lits[l - 1] && Shifted(lits, l)[l := lits[l]] == Shifted(lits, l - 1)
    ensures l == 2 ==> Shifted(lits, l) == lits[2 := lits[0]] && Shifted(lits, l)[2 := lits[2]] == lits
  {
  }

  /** The literal at l in front, and those before it one position further back. */
  function Fronted(lits: Clause, l: nat): Clause
    requires 2 <= l < |lits|
  {
    [lits[l], lits[1], lits[0]] + lits[2..l] + lits[l + 1..]
  }

  lemma ShiftedFronted(lits: Clause, l: nat)
    requires 2 <= l < |lits|
    ensures Shifted(lits, l)[0 := lits[l]] == Fronted(lits, l)
  {
    var r, f := Shifted(lits, l)[0 := lits[l]], Fronted(lits, l);
    forall i | 0 <= i < |lits|
      ensures r[i] == f[i]
    {
      assert i > l ==> f[i] == lits[l + 1..][i - l - 1];
    }
  }

  lemma FrontedPerm(lits: Clause, l: nat)
    requires 2 <= l < |lits|
    ensures multiset(Fronted(lits, l)) == multiset(lits)
  {
    var a, c, d, e := [lits[0], lits[1]], lits[2..l], [lits[l]], lits[l + 1..];
    assert lits == a + c + d + e;
  }

  /** Moves the literals from position 2 on up by one, up to the first that is not false. */
  method ShiftUp(level: map<Lit, nat>, lits: Clause) returns (found: bool, cl: Clause, l: nat)
    requires |lits| > 2
    ensures 2 <= l < |lits| && cl == Shifted(lits, l)
    ensures found <==> -lits[l] !in level
    ensures !found ==> l == |lits| - 1
    ensures forall i :: 2 <= i < l ==> -lits[i] in level
  {
    hide Shifted;
    ShiftedStep(lits, 2);
    cl, l := lits[2 := lits[0]], 2;
    var prev := lits[2];
    found := -prev !in level;
    while l + 1 < |lits| && !found
      invariant 2 <= l < |lits|
      invariant cl == Shifted(lits, l) && prev == lits[l]
      invariant forall i :: 2 <= i < l ==> -lits[i] in level
      invariant found <==> -lits[l] !in level
      decreases |lits| - l
    {
      ShiftedStep(lits, l);
      l := l + 1;
      var newLit := cl[l];
      cl := cl[l := prev];
      prev := newLit;
      found := -newLit !in level;
    }
  }

  /** Moves the literals back. */
  method ShiftDown(lits: Clause, shifted: Clause) returns (cl: Clause)
    requires |lits| > 2 && shifted == Shifted(lits, |lits| - 1)
    ensures cl == lits
  {
    hide Shifted;
    cl := shifted;
    var prev := lits[|lits| - 1];
    var l := |lits|;
    while l > 2
      invariant 2 <= l <= |lits|
      invariant l > 2 ==> prev == lits[l - 1] && cl == Shifted(lits, l - 1)
      invariant l == 2 ==> cl == lits
    {
      ShiftedStep(lits, l - 1);
      l := l - 1;
      var newLit := cl[l];
      cl := cl[l := prev];
      prev := newLit;
    }
  }

  /** From position 2 on, the literal at l is the first that is not false. */
  predicate FirstNonFalse(level: map<Lit, nat>, lits: Clause, l: nat) {
    2 <= l < |lits| && -lits[l] !in level && forall i :: 2 <= i < l ==> -lits[i] in level
  }

  /** The first literal from position 2 on that is not false becomes the first watch; the literals before it move up.
      If there is none, the clause stays as it is. */
  method FindNonFalse(level: map<Lit, nat>, lits: Clause) returns (found: bool, cl: Clause)
    requires |lits| > 2 && NoDup(lits)
    ensures |cl| == |lits| && SameLits(lits, cl) && NoDup(cl)
    ensures !found ==> cl == lits && forall l :: l in lits ==> l == lits[0] || l == lits[1] || -l in level
    ensures found ==> cl[1] == lits[1] && cl[0] != lits[0] && -cl[0] !in level
    ensures found ==>
      exists l: nat :: FirstNonFalse(level, lits, l) && cl == Fronted(lits, l)
  {
    hide Shifted;
    var l;
    found, cl, l := ShiftUp(level, lits);
    if found {
      FrontedPerm(lits, l);
      ShiftedFronted(lits, l);
      cl := cl[0 := lits[l]];
      PermSame(lits, cl);
      assert FirstNonFalse(level, lits, l);
    } else {
      cl := ShiftDown(lits, cl);
    }
  }
}
