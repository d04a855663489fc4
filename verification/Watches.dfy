/** The clause store: watch lists of the large clauses, lists of binary clauses, and the watch invariant. */
module Watches {
  import opened Cnf
  import opened Trails

  /** The list stored for a key; a missing key stands for the empty list. */
  function At<T>(m: map<Lit, seq<T>>, l: Lit): seq<T> {
    if l in m then m[l] else []
  }

  /** Heads of linked lists become sequences: index 0 is the head. */
  datatype Store = Store(
    cls: map<Cid, Clause>,          // literals of every stored clause; the first two are the watches
    learned: set<Cid>,              // clauses that were learned
    watched: set<Cid>,              // clauses that were connected
    htps: map<Lit, seq<Cid>>,       // clauses to visit when the literal becomes false
    dhtps: map<Lit, seq<Cid>>,      // clauses parked while the literal is true
    impls: map<Lit, seq<Lit>>)      // the other literals of the binary clauses with this literal

  ghost predicate ClauseOk(n: nat, c: Clause) {
    && NoDup(c)
    && forall l :: l in c ==> 1 <= Var(l) <= n
  }

  ghost predicate ClausesOk(n: nat, cls: map<Cid, Clause>) {
    forall c :: c in cls ==> ClauseOk(n, cls[c]) && |cls[c]| != 2
  }

  ghost predicate ImplsOk(n: nat, impls: map<Lit, seq<Lit>>) {
    forall a, b :: b in At(impls, a) ==> a != b && 1 <= Var(a) <= n && 1 <= Var(b) <= n && a in At(impls, b)
  }

  ghost predicate ImplsEntailed(F: set<Clause>, impls: map<Lit, seq<Lit>>) {
    forall a, b :: b in At(impls, a) ==> Entails(F, [a, b])
  }

  ghost predicate IsWatch(c: Clause, l: Lit) {
    (|c| >= 1 && c[0] == l) || (|c| >= 2 && c[1] == l)
  }

  // ---------- where a clause is linked ----------

  /** The link of c for its watch w is on w's list, or parked with the other watch o, but not both. */
  ghost predicate LinkOk(D: Store, c: Cid, w: Lit, o: Lit) {
    c in At(D.htps, w) <==> c !in At(D.dhtps, o)
  }

  ghost predicate Located(D: Store, c: Cid) {
    && c in D.cls
    && |D.cls[c]| >= 1
    && (|D.cls[c]| == 1 ==> c in At(D.htps, D.cls[c][0]))
    && (|D.cls[c]| >= 2 ==> LinkOk(D, c, D.cls[c][0], D.cls[c][1]) && LinkOk(D, c, D.cls[c][1], D.cls[c][0]))
  }

  ghost predicate HtpOk(D: Store, l: Lit, c: Cid) {
    c in D.watched && c in D.cls && IsWatch(D.cls[c], l)
  }

  ghost predicate DhtpOk(D: Store, l: Lit, c: Cid) {
    c in D.watched && c in D.cls && |D.cls[c]| >= 2 && IsWatch(D.cls[c], l)
  }

  ghost predicate AllNoDup(m: map<Lit, seq<Cid>>) {
    forall l :: NoDup(At(m, l))
  }

  ghost predicate ListsOk(D: Store) {
    && (forall c :: c in D.watched ==> Located(D, c))
    && (forall l, c :: c in At(D.htps, l) ==> HtpOk(D, l, c))
    && (forall l, c :: c in At(D.dhtps, l) ==> DhtpOk(D, l, c))
    && AllNoDup(D.htps)
    && AllNoDup(D.dhtps)
  }

  /** Clauses are parked only with literals that are true. */
  ghost predicate ParkedTrue(T: Trail, dhtps: map<Lit, seq<Cid>>) {
    forall l :: At(dhtps, l) != [] ==> l in T.pos
  }

  // ---------- the watch invariant ----------

  /** Once the falsity of w has been propagated, o is true at no higher level. b bounds what was propagated. */
  ghost predicate WatchOk(T: Trail, b: nat, w: Lit, o: Lit) {
    -w in T.pos && T.pos[-w] < b ==> o in T.pos && o in T.lev && -w in T.lev && T.lev[o] <= T.lev[-w]
  }

  ghost predicate ClauseWatched(T: Trail, b: nat, c: Clause) {
    && (|c| == 1 ==> c[0] in T.lev && T.lev[c[0]] == 0)
    && (|c| >= 2 ==> WatchOk(T, b, c[0], c[1]) && WatchOk(T, b, c[1], c[0]))
  }

  ghost predicate WatchesOk(T: Trail, b: nat, cls: map<Cid, Clause>, W: set<Cid>) {
    forall c :: c in W ==> c in cls && ClauseWatched(T, b, cls[c])
  }

  /** The same for binary clauses; H holds the pairs that are still to be put right. */
  ghost predicate BinsOk(T: Trail, b: nat, impls: map<Lit, seq<Lit>>, H: set<(Lit, Lit)>) {
    forall w, o :: o in At(impls, w) && (w, o) !in H ==> WatchOk(T, b, w, o)
  }

  lemma WatchExtend(T: Trail, b: nat, l: Lit, r: Reason, w: Lit, o: Lit)
    requires Indexed(T) && b <= |T.lits| && l !in T.pos
    requires WatchOk(T, b, w, o)
    ensures WatchOk(Extend(T, l, r), b, w, o)
  {
  }

  lemma ClauseWatchedExtend(T: Trail, b: nat, l: Lit, r: Reason, c: Clause)
    requires Indexed(T) && b <= |T.lits| && l !in T.pos
    requires ClauseWatched(T, b, c)
    ensures ClauseWatched(Extend(T, l, r), b, c)
  {
    hide WatchOk;
    if |c| >= 2 {
      WatchExtend(T, b, l, r, c[0], c[1]);
      WatchExtend(T, b, l, r, c[1], c[0]);
    }
  }

  lemma WatchesExtend(T: Trail, b: nat, cls: map<Cid, Clause>, W: set<Cid>, l: Lit, r: Reason)
    requires Indexed(T) && b <= |T.lits| && l !in T.pos
    requires WatchesOk(T, b, cls, W)
    ensures WatchesOk(Extend(T, l, r), b, cls, W)
  {
    hide ClauseWatched;
    forall c | c in W
      ensures c in cls && ClauseWatched(Extend(T, l, r), b, cls[c])
    {
      ClauseWatchedExtend(T, b, l, r, cls[c]);
    }
  }

  lemma BinsExtend(T: Trail, b: nat, impls: map<Lit, seq<Lit>>, H: set<(Lit, Lit)>, l: Lit, r: Reason)
    requires Indexed(T) && b <= |T.lits| && l !in T.pos
    requires BinsOk(T, b, impls, H)
    ensures BinsOk(Extend(T, l, r), b, impls, H)
  {
    hide WatchOk;
    forall w, o | o in At(impls, w) && (w, o) !in H
      ensures WatchOk(Extend(T, l, r), b, w, o)
    {
      WatchExtend(T, b, l, r, w, o);
    }
  }

  /** Everything below the current level was propagated, so backtracking leaves a fully propagated trail. */
  lemma WatchPrefix(T: Trail, b: nat, k: nat, d: nat, w: Lit, o: Lit)
    requires Indexed(T) && Splits(T, k, d) && k <= b
    requires WatchOk(T, b, w, o)
    ensures WatchOk(Prefix(T, k, d), k, w, o)
  {
  }

  lemma ClauseWatchedPrefix(T: Trail, b: nat, k: nat, d: nat, c: Clause)
    requires Indexed(T) && Splits(T, k, d) && k <= b
    requires ClauseWatched(T, b, c)
    ensures ClauseWatched(Prefix(T, k, d), k, c)
  {
    hide WatchOk;
    if |c| >= 2 {
      WatchPrefix(T, b, k, d, c[0], c[1]);
      WatchPrefix(T, b, k, d, c[1], c[0]);
    } else if |c| == 1 {
      var l := c[0];
      assert l in T.lev && T.lev[l] <= d;
      assert l in T.pos && T.pos[l] < k;
    }
  }

  lemma WatchesPrefix(T: Trail, b: nat, cls: map<Cid, Clause>, W: set<Cid>, k: nat, d: nat)
    requires Indexed(T) && Splits(T, k, d) && k <= b
    requires WatchesOk(T, b, cls, W)
    ensures WatchesOk(Prefix(T, k, d), k, cls, W)
  {
    hide ClauseWatched;
    forall c | c in W
      ensures c in cls && ClauseWatched(Prefix(T, k, d), k, cls[c])
    {
      ClauseWatchedPrefix(T, b, k, d, cls[c]);
    }
  }

  lemma BinsPrefix(T: Trail, b: nat, impls: map<Lit, seq<Lit>>, H: set<(Lit, Lit)>, k: nat, d: nat)
    requires Indexed(T) && Splits(T, k, d) && k <= b
    requires BinsOk(T, b, impls, H)
    ensures BinsOk(Prefix(T, k, d), k, impls, H)
  {
    hide WatchOk;
    forall w, o | o in At(impls, w) && (w, o) !in H
      ensures WatchOk(Prefix(T, k, d), k, w, o)
    {
      WatchPrefix(T, b, k, d, w, o);
    }
  }

  // ---------- every original clause is looked after ----------

  ghost predicate TopSatisfied(lev: map<Lit, nat>, C: Clause) {
    exists l :: l in C && TopTrue(lev, l)
  }

  ghost predicate StoredLarge(D: Store, C: Clause) {
    exists c :: c in D.watched && c !in D.learned && c in D.cls && SameLits(D.cls[c], C)
  }

  ghost predicate StoredBinary(impls: map<Lit, seq<Lit>>, C: Clause) {
    exists a, b :: b in At(impls, a) && SameLits([a, b], C)
  }

  ghost predicate Covered(T: Trail, D: Store, C: Clause) {
    Tautology(C) || TopSatisfied(T.lev, C) || StoredLarge(D, C) || StoredBinary(D.impls, C)
  }

  ghost predicate Covers(F: set<Clause>, T: Trail, D: Store) {
    forall C :: C in F ==> Covered(T, D, C)
  }

  // ---------- shrunken copies ----------

  /** cl is C without literals that are false at top level. */
  ghost predicate ShrunkFrom(T: Trail, cl: Clause, C: Clause) {
    && (forall l :: l in cl ==> l in C)
    && (forall l :: l in C ==> l in cl || (-l in T.lev && T.lev[-l] == 0))
  }

  ghost predicate IsCopy(F: set<Clause>, T: Trail, cl: Clause) {
    exists C :: C in F && ShrunkFrom(T, cl, C)
  }

  /** A stored clause that is not watched is a shrunken copy of an original clause. */
  ghost predicate CopiesOk(F: set<Clause>, T: Trail, D: Store) {
    forall c :: c in D.cls && c !in D.watched ==> IsCopy(F, T, D.cls[c])
  }

  lemma CopyMore(F: set<Clause>, T: Trail, cl: Clause, G: set<Clause>, U: Trail, dl: Clause)
    requires IsCopy(F, T, cl) && F <= G && SameLits(cl, dl)
    requires forall l :: l in T.lev && T.lev[l] == 0 ==> l in U.lev && U.lev[l] == 0
    ensures IsCopy(G, U, dl)
  {
    var C :| C in F && ShrunkFrom(T, cl, C);
    assert C in G && ShrunkFrom(U, dl, C);
  }

  lemma CopiesMore(F: set<Clause>, T: Trail, D: Store, G: set<Clause>, U: Trail, E: Store)
    requires CopiesOk(F, T, D) && F <= G
    requires forall l :: l in T.lev && T.lev[l] == 0 ==> l in U.lev && U.lev[l] == 0
    requires forall c :: c in E.cls && c !in E.watched ==> c in D.cls && c !in D.watched && SameLits(D.cls[c], E.cls[c])
    ensures CopiesOk(G, U, E)
  {
    hide IsCopy, SameLits;
    forall c | c in E.cls && c !in E.watched
      ensures IsCopy(G, U, E.cls[c])
    {
      CopyMore(F, T, D.cls[c], G, U, E.cls[c]);
    }
  }

  /** After complete propagation a covered clause is satisfied or has two unassigned literals. */
  ghost predicate Quiet(T: Trail, C: Clause) {
    || (exists l :: l in C && l in T.pos)
    || (exists l, k :: l in C && k in C && l != k && Unassigned(T, l) && Unassigned(T, k))
  }

  lemma PairQuiet(T: Trail, b: nat, w: Lit, o: Lit, C: Clause)
    requires Indexed(T) && b == |T.lits|
    requires WatchOk(T, b, w, o) && WatchOk(T, b, o, w)
    requires w in C && o in C && w != o
    ensures Quiet(T, C)
  {
    if w in T.pos || o in T.pos {
    } else {
      assert Unassigned(T, w) && Unassigned(T, o);
    }
  }

  lemma CoveredQuiet(n: nat, T: Trail, b: nat, D: Store, C: Clause)
    requires Indexed(T) && b == |T.lits|
    requires ClausesOk(n, D.cls) && ImplsOk(n, D.impls) && ListsOk(D)
    requires WatchesOk(T, b, D.cls, D.watched) && BinsOk(T, b, D.impls, {})
    requires Covered(T, D, C) && 0 !in C
    ensures Quiet(T, C)
  {
    hide WatchOk, LinkOk, HtpOk, DhtpOk;
    if StoredLarge(D, C) {
      var c :| c in D.watched && c !in D.learned && c in D.cls && SameLits(D.cls[c], C);
      assert Located(D, c) && ClauseWatched(T, b, D.cls[c]) && ClauseOk(n, D.cls[c]);
      var cl := D.cls[c];
      assert cl[0] in C;
      if |cl| == 1 {
        assert cl[0] in T.pos;
      } else {
        assert cl[1] in C;
        PairQuiet(T, b, cl[0], cl[1], C);
      }
    } else if TopSatisfied(T.lev, C) {
      var l :| l in C && l in T.lev && T.lev[l] == 0;
      assert l in T.pos;
    } else if Tautology(C) {
      var l :| l in C && -l in C;
      assert l in T.pos || -l in T.pos || (l != -l && Unassigned(T, l) && Unassigned(T, -l));
    } else {
      var a, o :| o in At(D.impls, a) && SameLits([a, o], C);
      assert a in At(D.impls, o);
      assert a in [a, o] && o in [a, o];
      PairQuiet(T, b, a, o, C);
    }
  }
}
