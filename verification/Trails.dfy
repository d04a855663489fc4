/** The assignment trail: which literals are true, since which decision level and for which reason. */
module Trails {
  import opened Cnf

  /** A stored clause, by the index it got when it was allocated. */
  type Cid = nat

  /** Why a literal is true: a decision, a true literal r with the binary clause (-r, l), or a stored clause. */
  datatype Reason = Decision | Implied(other: Lit) | Antecedent(c: Cid)

  /** lits is the trail itself; lev, rsn and pos are keyed by the true literals. */
  datatype Trail = Trail(lits: seq<Lit>, lev: map<Lit, nat>, rsn: map<Lit, Reason>, pos: map<Lit, nat>, dl: nat)

  const EMPTY_TRAIL := Trail([], map[], map[], map[], 0)

  /** A literal that is true at top level. */
  predicate TopTrue(lev: map<Lit, nat>, l: Lit) {
    l in lev && lev[l] == 0
  }

  /** A variable without a value. */
  predicate Undef(lev: map<Lit, nat>, v: nat) {
    v !in lev && -(v as int) !in lev
  }

  ghost predicate IsDecision(T: Trail, l: Lit) {
    l in T.rsn && T.rsn[l].Decision?
  }

  ghost predicate HasDecision(T: Trail, d: nat) {
    exists l :: IsDecision(T, l) && l in T.lev && T.lev[l] == d
  }

  /** The maps describe exactly the literals of the trail. */
  ghost predicate Indexed(T: Trail) {
    && T.lev.Keys == T.pos.Keys
    && T.rsn.Keys == T.pos.Keys
    && (forall i :: 0 <= i < |T.lits| ==> T.lits[i] in T.pos && T.pos[T.lits[i]] == i)
    && (forall l :: l in T.pos ==> T.pos[l] < |T.lits| && T.lits[T.pos[l]] == l)
  }

  ghost predicate Consistent(n: nat, T: Trail) {
    forall l :: l in T.pos ==> -l !in T.pos && 1 <= Var(l) <= n
  }

  /** Levels do not decrease along the trail, and only decisions open a new one. */
  ghost predicate Layered(T: Trail)
    requires T.lev.Keys == T.pos.Keys
  {
    && (forall l :: l in T.lev ==> T.lev[l] <= T.dl)
    && (forall l, k :: l in T.pos && k in T.pos && T.pos[l] <= T.pos[k] ==> T.lev[l] <= T.lev[k])
  }

  ghost predicate Decided(T: Trail)
    requires T.lev.Keys == T.pos.Keys
  {
    && (forall l, k :: IsDecision(T, l) && l in T.pos && k in T.pos && T.pos[k] < T.pos[l] ==> T.lev[k] < T.lev[l])
    && (forall l :: IsDecision(T, l) && l in T.lev ==> T.lev[l] > 0)
    && (forall d :: 1 <= d <= T.dl ==> HasDecision(T, d))
  }

  ghost predicate TrailOk(n: nat, T: Trail) {
    && Indexed(T)
    && Consistent(n, T)
    && Layered(T)
    && Decided(T)
  }

  ghost predicate Unassigned(T: Trail, l: Lit) {
    l !in T.pos && -l !in T.pos
  }

  /** R can have forced l: it contains l, and its other literals are false since before l became true. */
  ghost predicate IsReason(T: Trail, l: Lit, R: Clause) {
    && l in R
    && (forall k :: k in R && k != l ==> -k in T.pos && l in T.pos && T.pos[-k] < T.pos[l])
    && (l in T.lev && T.lev[l] > 0 ==> exists k :: k in R && k != l && -k in T.lev && T.lev[-k] == T.lev[l])
  }

  ghost predicate ReasonOk(T: Trail, cls: map<Cid, Clause>, l: Lit)
    requires l in T.rsn
  {
    match T.rsn[l]
    case Decision => true
    case Implied(r) => IsReason(T, l, [-r, l])
    case Antecedent(c) => c in cls && IsReason(T, l, cls[c])
  }

  ghost predicate ReasonsOk(T: Trail, cls: map<Cid, Clause>) {
    forall l :: l in T.rsn ==> ReasonOk(T, cls, l)
  }

  function ReasonLits(rsn: map<Lit, Reason>, cls: map<Cid, Clause>, l: Lit): Clause
    requires l in rsn && !rsn[l].Decision?
    requires rsn[l].Antecedent? ==> rsn[l].c in cls
  {
    match rsn[l]
    case Implied(r) => [-r, l]
    case Antecedent(c) => cls[c]
  }

  // ---------- one more literal ----------

  function Extend(T: Trail, l: Lit, r: Reason): Trail {
    Trail(T.lits + [l], T.lev[l := T.dl], T.rsn[l := r], T.pos[l := |T.lits|], T.dl)
  }

  function Decide(T: Trail, l: Lit): Trail {
    Extend(T.(dl := T.dl + 1), l, Decision)
  }

  lemma IndexedExtend(n: nat, T: Trail, l: Lit, r: Reason)
    requires Indexed(T) && Consistent(n, T) && Unassigned(T, l) && 1 <= Var(l) <= n
    ensures Indexed(Extend(T, l, r)) && Consistent(n, Extend(T, l, r))
  {
    assert Indexed(Extend(T, l, r)) by {
      hide Consistent;
      IndexedMore(T, l, r);
    }
    hide Indexed;
    ConsistentMore(n, T, l, r);
  }

  lemma IndexedMore(T: Trail, l: Lit, r: Reason)
    requires Indexed(T) && l !in T.pos
    ensures Indexed(Extend(T, l, r))
  {
    var U := Extend(T, l, r);
    forall i | 0 <= i < |U.lits|
      ensures U.lits[i] in U.pos && U.pos[U.lits[i]] == i
    {
      assert i < |T.lits| ==> T.lits[i] in T.pos;
    }
  }

  lemma ConsistentMore(n: nat, T: Trail, l: Lit, r: Reason)
    requires Consistent(n, T) && Unassigned(T, l) && 1 <= Var(l) <= n
    ensures Consistent(n, Extend(T, l, r))
  {
    var U := Extend(T, l, r);
    forall k | k in U.pos
      ensures -k !in U.pos && 1 <= Var(k) <= n
    {
      assert k != l ==> k in T.pos;
    }
  }

  lemma LayeredExtend(T: Trail, l: Lit, r: Reason)
    requires Indexed(T) && Layered(T) && l !in T.pos
    ensures Layered(Extend(T, l, r))
  {
  }

  lemma DecidedExtend(T: Trail, l: Lit, r: Reason)
    requires Indexed(T) && Decided(T) && l !in T.pos
    requires r.Decision? ==> T.dl > 0 && forall k :: k in T.lev ==> T.lev[k] < T.dl
    ensures Decided(Extend(T, l, r))
  {
    var U := Extend(T, l, r);
    forall d | 1 <= d <= U.dl
      ensures HasDecision(U, d)
    {
      assert HasDecision(T, d);
      var k :| IsDecision(T, k) && k in T.lev && T.lev[k] == d;
      assert IsDecision(U, k) && k in U.lev && U.lev[k] == d;
    }
    forall k | IsDecision(U, k) && k != l
      ensures IsDecision(T, k)
    {
    }
  }

  lemma ExtendOk(n: nat, T: Trail, l: Lit, r: Reason)
    requires TrailOk(n, T) && Unassigned(T, l) && 1 <= Var(l) <= n
    requires !r.Decision?
    ensures TrailOk(n, Extend(T, l, r))
  {
    hide Layered, Decided;
    IndexedExtend(n, T, l, r);
    LayeredExtend(T, l, r);
    DecidedExtend(T, l, r);
  }
  lemma DecideOk(n: nat, T: Trail, l: Lit)
    requires TrailOk(n, T) && Unassigned(T, l) && 1 <= Var(l) <= n
    ensures TrailOk(n, Decide(T, l))
  {
    var S := T.(dl := T.dl + 1);
    assert Indexed(S) && Layered(S) && Decide(T, l) == Extend(S, l, Decision);
    IndexedExtend(n, S, l, Decision);
    LayeredExtend(S, l, Decision);
    DecidedDecide(T, l);
  }

  lemma DecidedDecide(T: Trail, l: Lit)
    requires Indexed(T) && Layered(T) && Decided(T) && l !in T.pos
    ensures Decided(Decide(T, l))
  {
    var U := Decide(T, l);
    forall d | 1 <= d <= U.dl
      ensures HasDecision(U, d)
    {
      if d == U.dl {
        assert IsDecision(U, l) && U.lev[l] == d;
      } else {
        assert HasDecision(T, d);
        var k :| IsDecision(T, k) && k in T.lev && T.lev[k] == d;
        assert IsDecision(U, k) && k in U.lev && U.lev[k] == d;
      }
    }
    forall k | IsDecision(U, k) && k != l
      ensures IsDecision(T, k)
    {
    }
  }

  lemma ReasonExtend(T: Trail, l: Lit, r: Reason, k: Lit, R: Clause)
    requires l !in T.pos && k in T.pos && T.lev.Keys == T.pos.Keys
    requires IsReason(T, k, R)
    ensures IsReason(Extend(T, l, r), k, R)
  {
    var U := Extend(T, l, r);
    assert k != l;
    if U.lev[k] > 0 {
      var j :| j in R && j != k && -j in T.lev && T.lev[-j] == T.lev[k];
      assert j in R && j != k && -j in U.lev && U.lev[-j] == U.lev[k];
    }
  }

  lemma ReasonsExtend(T: Trail, cls: map<Cid, Clause>, l: Lit, r: Reason)
    requires Indexed(T) && l !in T.pos
    requires ReasonsOk(T, cls)
    requires ReasonOk(Extend(T, l, r), cls, l)
    ensures ReasonsOk(Extend(T, l, r), cls)
  {
    hide IsReason;
    var U := Extend(T, l, r);
    forall k | k in U.rsn && k != l
      ensures ReasonOk(U, cls, k)
    {
      assert ReasonOk(T, cls, k);
      match T.rsn[k]
      case Decision =>
      case Implied(b) => ReasonExtend(T, l, r, k, [-b, k]);
      case Antecedent(c) => ReasonExtend(T, l, r, k, cls[c]);
    }
  }

  lemma ReasonSame(T: Trail, l: Lit, R: Clause, S: Clause)
    requires IsReason(T, l, R) && SameLits(R, S)
    ensures IsReason(T, l, S)
  {
    if l in T.lev && T.lev[l] > 0 {
      var k :| k in R && k != l && -k in T.lev && T.lev[-k] == T.lev[l];
      assert k in S;
    }
  }

  /** Clauses may be reordered and others may come and go, as long as the reasons stay. */
  lemma ReasonsStore(T: Trail, cls: map<Cid, Clause>, cls': map<Cid, Clause>)
    requires ReasonsOk(T, cls)
    requires forall l :: l in T.rsn && T.rsn[l].Antecedent? ==>
      T.rsn[l].c in cls && T.rsn[l].c in cls' && SameLits(cls[T.rsn[l].c], cls'[T.rsn[l].c])
    ensures ReasonsOk(T, cls')
  {
    forall l | l in T.rsn
      ensures ReasonOk(T, cls', l)
    {
      assert ReasonOk(T, cls, l);
      if T.rsn[l].Antecedent? {
        ReasonSame(T, l, cls[T.rsn[l].c], cls'[T.rsn[l].c]);
      }
    }
  }

  // ---------- backtracking ----------

  /** The first k literals of the trail, seen from decision level d. */
  ghost function Prefix(T: Trail, k: nat, d: nat): Trail
    requires k <= |T.lits| && T.lev.Keys == T.pos.Keys && T.rsn.Keys == T.pos.Keys
  {
    Trail(T.lits[..k],
          map l | l in T.pos && T.pos[l] < k :: T.lev[l],
          map l | l in T.pos && T.pos[l] < k :: T.rsn[l],
          map l | l in T.pos && T.pos[l] < k :: T.pos[l],
          d)
  }

  /** Position k separates the levels up to d from those above. */
  ghost predicate Splits(T: Trail, k: nat, d: nat) {
    && k <= |T.lits|
    && T.lev.Keys == T.pos.Keys
    && forall l :: l in T.pos ==> (T.pos[l] < k <==> T.lev[l] <= d)
  }

  lemma PrefixOk(n: nat, T: Trail, k: nat, d: nat)
    requires TrailOk(n, T) && Splits(T, k, d) && d <= T.dl
    ensures TrailOk(n, Prefix(T, k, d))
  {
    var U := Prefix(T, k, d);
    forall e | 1 <= e <= d
      ensures HasDecision(U, e)
    {
      assert HasDecision(T, e);
      var l :| IsDecision(T, l) && l in T.lev && T.lev[l] == e;
      assert IsDecision(U, l) && l in U.lev && U.lev[l] == e;
    }
    forall l | l in U.pos
      ensures l in T.pos && U.pos[l] == T.pos[l] && U.lev[l] == T.lev[l] && (IsDecision(U, l) <==> IsDecision(T, l))
      ensures U.pos[l] < |U.lits| && U.lits[U.pos[l]] == l
    {
    }
  }

  lemma ReasonPrefix(T: Trail, k: nat, d: nat, l: Lit, R: Clause)
    requires Indexed(T) && k <= |T.lits|
    requires l in T.pos && T.pos[l] < k
    requires IsReason(T, l, R)
    ensures IsReason(Prefix(T, k, d), l, R)
  {
    var U := Prefix(T, k, d);
    if T.lev[l] > 0 {
      var j :| j in R && j != l && -j in T.lev && T.lev[-j] == T.lev[l];
      assert T.pos[-j] < T.pos[l];
      assert j in R && j != l && -j in U.lev && U.lev[-j] == U.lev[l];
    }
  }

  lemma ReasonsPrefix(T: Trail, cls: map<Cid, Clause>, k: nat, d: nat)
    requires Indexed(T) && k <= |T.lits|
    requires ReasonsOk(T, cls)
    ensures ReasonsOk(Prefix(T, k, d), cls)
  {
    hide IsReason;
    var U := Prefix(T, k, d);
    forall l | l in U.rsn
      ensures ReasonOk(U, cls, l)
    {
      assert ReasonOk(T, cls, l);
      match T.rsn[l]
      case Decision =>
      case Implied(b) => ReasonPrefix(T, k, d, l, [-b, l]);
      case Antecedent(c) => ReasonPrefix(T, k, d, l, cls[c]);
    }
  }

  // ---------- counting ----------

  lemma {:induction false} DistinctBelow(n: nat, s: seq<nat>)
    requires NoDup(s)
    requires forall i :: 0 <= i < |s| ==> 1 <= s[i] <= n
    ensures |s| <= n
    decreases n
  {
    if s != [] {
      var last := s[|s| - 1];
      if n in s {
        var i :| 0 <= i < |s| && s[i] == n;
        DistinctBelow(n - 1, s[..i] + s[i + 1..]);
      } else {
        DistinctBelow(n - 1, s);
      }
    }
  }

  lemma IndexedFits(n: nat, T: Trail)
    requires Indexed(T) && Consistent(n, T)
    ensures |T.lits| <= n
  {
    var s: seq<nat> := seq(|T.lits|, i requires 0 <= i < |T.lits| => Var(T.lits[i]));
    forall i, j | 0 <= i < j < |s|
      ensures s[i] != s[j]
    {
      assert T.lits[i] in T.pos && T.lits[j] in T.pos;
      assert -T.lits[i] !in T.pos;
      assert T.pos[T.lits[i]] != T.pos[T.lits[j]];
    }
    forall i | 0 <= i < |s|
      ensures 1 <= s[i] <= n
    {
      assert T.lits[i] in T.pos;
    }
    DistinctBelow(n, s);
  }

  lemma TrailFits(n: nat, T: Trail)
    requires TrailOk(n, T)
    ensures |T.lits| <= n
  {
    IndexedFits(n, T);
  }

  /** A decision of level d has at least d - 1 literals before it, so there are no more levels than variables. */
  lemma {:induction false} DecisionsSpread(n: nat, T: Trail, d: nat, l: Lit)
    requires TrailOk(n, T) && IsDecision(T, l) && T.lev[l] == d
    ensures d <= T.pos[l] + 1
    decreases d
  {
    if d > 1 {
      assert d <= T.dl;
      assert HasDecision(T, d - 1);
      var k :| IsDecision(T, k) && k in T.lev && T.lev[k] == d - 1;
      DecisionsSpread(n, T, d - 1, k);
    }
  }

  lemma LevelsFit(n: nat, T: Trail)
    requires TrailOk(n, T)
    ensures T.dl <= |T.lits| <= n
  {
    TrailFits(n, T);
    if T.dl > 0 {
      assert HasDecision(T, T.dl);
      var l :| IsDecision(T, l) && l in T.lev && T.lev[l] == T.dl;
      DecisionsSpread(n, T, T.dl, l);
    }
  }
}
