/** The counters the solver keeps of its large clauses, and what they count. */
module Counting {
  import opened Cnf
  import opened Trails
  import opened Watches

  /** Large clauses have more than two literals. */
  datatype Counters = Counters(
    nlclauses: int,     // large learned clauses
    llits: int,         // their literals
    noclauses: int,     // large original clauses
    olits: int,         // their literals
    llocked: int)       // large learned clauses that are locked

  predicate IsLarge(cls: map<Cid, Clause>, c: Cid) {
    c in cls && |cls[c]| > 2
  }

  datatype Tally = Tally(clauses: int, lits: int, locked: int)

  /** Counts the large clauses of a stack, their literals, and how many of them are locked. */
  function Count(cls: map<Cid, Clause>, locked: set<Cid>, s: seq<Cid>): Tally {
    if s == [] then Tally(0, 0, 0)
    else
      var t := Count(cls, locked, s[..|s| - 1]);
      var c := s[|s| - 1];
      if IsLarge(cls, c) then Tally(t.clauses + 1, t.lits + |cls[c]|, t.locked + if c in locked then 1 else 0)
      else t
  }

  /** What the counters should be. */
  function CountersOf(cls: map<Cid, Clause>, locked: set<Cid>, ocls: seq<Cid>, lcls: seq<Cid>): Counters {
    var l := Count(cls, locked, lcls);
    var o := Count(cls, locked, ocls);
    Counters(l.clauses, l.lits, o.clauses, o.lits, l.locked)
  }

  lemma CountPush(cls: map<Cid, Clause>, locked: set<Cid>, s: seq<Cid>, c: Cid)
    ensures var t := Count(cls, locked, s);
      Count(cls, locked, s + [c]) ==
        if IsLarge(cls, c) then Tally(t.clauses + 1, t.lits + |cls[c]|, t.locked + if c in locked then 1 else 0) else t
  {
    assert (s + [c])[..|s|] == s;
  }

  /** Only the sizes of the clauses on the stack matter, and which of the large ones are locked. */
  lemma {:induction false} CountSame(cls: map<Cid, Clause>, cls': map<Cid, Clause>, locked: set<Cid>,
                                     locked': set<Cid>, s: seq<Cid>)
    requires forall c :: c in s ==> (c in cls <==> c in cls')
    requires forall c :: c in s && c in cls ==> |cls[c]| == |cls'[c]|
    requires forall c :: c in s && IsLarge(cls, c) ==> (c in locked <==> c in locked')
    ensures Count(cls, locked, s) == Count(cls', locked', s)
  {
    if s != [] {
      var c := s[|s| - 1];
      assert c in s;
      CountSame(cls, cls', locked, locked', s[..|s| - 1]);
    }
  }

  lemma {:induction false} CountLock(cls: map<Cid, Clause>, locked: set<Cid>, s: seq<Cid>, c: Cid)
    requires NoDup(s) && c !in locked
    ensures Count(cls, locked + {c}, s) ==
      Count(cls, locked, s).(locked := Count(cls, locked, s).locked + if c in s && IsLarge(cls, c) then 1 else 0)
  {
    if s != [] {
      var r, k := s[..|s| - 1], s[|s| - 1];
      assert s == r + [k];
      if k == c {
        assert c !in r;
        CountSame(cls, cls, locked, locked + {c}, r);
      } else {
        CountLock(cls, locked, r, c);
        assert c in s <==> c in r;
      }
    }
  }

  lemma CountUnlock(cls: map<Cid, Clause>, locked: set<Cid>, s: seq<Cid>, c: Cid)
    requires NoDup(s) && c in locked
    ensures Count(cls, locked - {c}, s) ==
      Count(cls, locked, s).(locked := Count(cls, locked, s).locked - if c in s && IsLarge(cls, c) then 1 else 0)
  {
    CountLock(cls, locked - {c}, s, c);
    assert locked - {c} + {c} == locked;
  }

  lemma {:induction false} CountBounds(cls: map<Cid, Clause>, locked: set<Cid>, s: seq<Cid>)
    ensures var t := Count(cls, locked, s); 0 <= t.locked <= t.clauses && 0 <= t.lits
  {
    if s != [] {
      CountBounds(cls, locked, s[..|s| - 1]);
    }
  }

  // ---------- the counters at each operation ----------

  function CountStore(k: Counters, size: nat, learned: bool): Counters {
    if size <= 2 then k
    else if learned then k.(nlclauses := k.nlclauses + 1, llits := k.llits + size)
    else k.(noclauses := k.noclauses + 1, olits := k.olits + size)
  }

  function LockWeight(D: Store, r: Reason): int {
    if r.Antecedent? && r.c in D.learned && IsLarge(D.cls, r.c) then 1 else 0
  }

  lemma StoreCounts(cls: map<Cid, Clause>, locked: set<Cid>, ocls: seq<Cid>, lcls: seq<Cid>, c: Cid, cl: Clause,
                    learned: bool)
    requires c !in cls && c !in ocls && c !in lcls && c !in locked
    ensures CountersOf(cls[c := cl], locked, if learned then ocls else ocls + [c], if learned then lcls + [c] else lcls)
      == CountStore(CountersOf(cls, locked, ocls, lcls), |cl|, learned)
  {
    var cls' := cls[c := cl];
    CountSame(cls, cls', locked, locked, ocls);
    CountSame(cls, cls', locked, locked, lcls);
    CountPush(cls', locked, if learned then lcls else ocls, c);
  }

  lemma LockCounts(D: Store, locked: set<Cid>, ocls: seq<Cid>, lcls: seq<Cid>, r: Reason)
    requires NoDup(ocls) && NoDup(lcls) && forall c :: c in D.learned <==> c in lcls
    requires r.Antecedent? && r.c !in locked
    ensures var k := CountersOf(D.cls, locked, ocls, lcls);
      CountersOf(D.cls, locked + {r.c}, ocls, lcls) == k.(llocked := k.llocked + LockWeight(D, r))
  {
    CountLock(D.cls, locked, ocls, r.c);
    CountLock(D.cls, locked, lcls, r.c);
  }

  lemma UnlockCounts(D: Store, locked: set<Cid>, ocls: seq<Cid>, lcls: seq<Cid>, r: Reason)
    requires NoDup(ocls) && NoDup(lcls) && forall c :: c in D.learned <==> c in lcls
    requires r.Antecedent? && r.c in locked
    ensures var k := CountersOf(D.cls, locked, ocls, lcls);
      CountersOf(D.cls, locked - {r.c}, ocls, lcls) == k.(llocked := k.llocked - LockWeight(D, r))
  {
    CountUnlock(D.cls, locked, ocls, r.c);
    CountUnlock(D.cls, locked, lcls, r.c);
  }

  lemma ResizedCounts(cls: map<Cid, Clause>, cls': map<Cid, Clause>, locked: set<Cid>, ocls: seq<Cid>, lcls: seq<Cid>)
    requires forall c :: c in cls <==> c in cls'
    requires forall c :: c in cls ==> |cls[c]| == |cls'[c]|
    ensures CountersOf(cls, locked, ocls, lcls) == CountersOf(cls', locked, ocls, lcls)
  {
    CountSame(cls, cls', locked, locked, ocls);
    CountSame(cls, cls', locked, locked, lcls);
  }
}
