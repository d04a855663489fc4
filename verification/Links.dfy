/** Every change the solver makes to the lists of the clause store keeps them well linked. */
module Links {
  import opened Cnf
  import opened Trails
  import opened Watches

  /** D and E link every clause other than c in the same way. */
  ghost predicate SameLinks(D: Store, E: Store, c: Cid) {
    && (forall k :: k != c ==> (k in D.cls <==> k in E.cls))
    && (forall k :: k != c && k in D.cls ==> D.cls[k] == E.cls[k])
    && (forall k :: k != c ==> (k in D.watched <==> k in E.watched))
    && (forall l, k :: k != c ==> (k in At(D.htps, l) <==> k in At(E.htps, l)))
    && (forall l, k :: k != c ==> (k in At(D.dhtps, l) <==> k in At(E.dhtps, l)))
  }

  lemma LinksFrame(D: Store, E: Store, c: Cid)
    requires ListsOk(D) && SameLinks(D, E, c)
    requires c in E.watched ==> Located(E, c)
    requires forall l :: c in At(E.htps, l) ==> HtpOk(E, l, c)
    requires forall l :: c in At(E.dhtps, l) ==> DhtpOk(E, l, c)
    requires AllNoDup(E.htps) && AllNoDup(E.dhtps)
    ensures ListsOk(E)
  {
    forall k | k in E.watched
      ensures Located(E, k)
    {
      if k != c {
        assert Located(D, k);
      }
    }
    forall l, k | k in At(E.htps, l)
      ensures HtpOk(E, l, k)
    {
      if k != c {
        assert HtpOk(D, l, k);
      }
    }
    forall l, k | k in At(E.dhtps, l)
      ensures DhtpOk(E, l, k)
    {
      if k != c {
        assert DhtpOk(D, l, k);
      }
    }
  }

  function Swap(cl: Clause): Clause
    requires |cl| >= 2
  {
    [cl[1], cl[0]] + cl[2..]
  }

  lemma SwapSame(n: nat, cl: Clause)
    requires |cl| >= 2 && ClauseOk(n, cl)
    ensures ClauseOk(n, Swap(cl)) && SameLits(cl, Swap(cl))
  {
    var s := Swap(cl);
    forall l | l in cl
      ensures l in s
    {
      var i :| 0 <= i < |cl| && cl[i] == l;
      assert i == 0 ==> s[1] == l;
      assert i == 1 ==> s[0] == l;
      assert i >= 2 ==> s[i] == l;
    }
    forall l | l in s
      ensures l in cl
    {
      var i :| 0 <= i < |s| && s[i] == l;
      assert i >= 2 ==> cl[i] == l;
    }
  }

  lemma SwapLinks(D: Store, c: Cid)
    requires ListsOk(D) && c in D.watched && c in D.cls && |D.cls[c]| >= 2
    ensures ListsOk(D.(cls := D.cls[c := Swap(D.cls[c])]))
  {
    var E := D.(cls := D.cls[c := Swap(D.cls[c])]);
    assert Located(D, c);
    forall l | c in At(E.htps, l)
      ensures HtpOk(E, l, c)
    {
      assert HtpOk(D, l, c);
    }
    forall l | c in At(E.dhtps, l)
      ensures DhtpOk(E, l, c)
    {
      assert DhtpOk(D, l, c);
    }
    LinksFrame(D, E, c);
  }

  /** Puts c in front of the list of l. */
  function Push(m: map<Lit, seq<Cid>>, l: Lit, c: Cid): map<Lit, seq<Cid>> {
    m[l := [c] + At(m, l)]
  }

  lemma PushList(m: map<Lit, seq<Cid>>, l: Lit, c: Cid)
    requires AllNoDup(m) && c !in At(m, l)
    ensures AllNoDup(Push(m, l, c))
    ensures forall k, x :: x in At(Push(m, l, c), k) <==> x in At(m, k) || (k == l && x == c)
  {
    var p := Push(m, l, c);
    forall k
      ensures NoDup(At(p, k))
    {
      assert NoDup(At(m, k));
    }
  }

  /** Takes c out of the middle of the list of l. */
  lemma CutList(m: map<Lit, seq<Cid>>, l: Lit, keep: seq<Cid>, c: Cid, rest: seq<Cid>)
    requires AllNoDup(m) && At(m, l) == keep + [c] + rest
    ensures c in At(m, l)
    ensures AllNoDup(m[l := keep + rest])
    ensures forall k, x :: x in At(m[l := keep + rest], k) <==> x in At(m, k) && !(k == l && x == c)
  {
    assert NoDup(At(m, l));
    CutNoDup(keep, c, rest);
    var p := m[l := keep + rest];
    forall k
      ensures NoDup(At(p, k))
    {
      assert NoDup(At(m, k));
    }
  }

  lemma CutNoDup<T>(keep: seq<T>, c: T, rest: seq<T>)
    requires NoDup(keep + [c] + rest)
    ensures NoDup(keep + rest) && c !in keep + rest && c in keep + [c] + rest
    ensures forall k :: k != c ==> (k in keep + [c] + rest <==> k in keep + rest)
  {
    var s := keep + [c] + rest;
    var t := keep + rest;
    forall i | 0 <= i < |t|
      ensures t[i] == s[if i < |keep| then i else i + 1]
    {
    }
    assert s[|keep|] == c;
  }

  /** Unlinks c from the list of its watch w and parks it with the other watch o. */
  function Park(D: Store, w: Lit, o: Lit, c: Cid, keep: seq<Cid>, rest: seq<Cid>): Store {
    D.(htps := D.htps[w := keep + rest], dhtps := Push(D.dhtps, o, c))
  }

  lemma ParkLinks(D: Store, w: Lit, o: Lit, c: Cid, keep: seq<Cid>, rest: seq<Cid>)
    requires ListsOk(D) && c in D.watched && c in D.cls
    requires |D.cls[c]| >= 2 && D.cls[c][0] == w && D.cls[c][1] == o && w != o
    requires At(D.htps, w) == keep + [c] + rest
    ensures ListsOk(Park(D, w, o, c, keep, rest))
  {
    hide At, AllNoDup, Push;
    var E := Park(D, w, o, c, keep, rest);
    CutList(D.htps, w, keep, c, rest);
    assert Located(D, c);
    PushList(D.dhtps, o, c);
    forall l | c in At(E.htps, l)
      ensures HtpOk(E, l, c)
    {
      assert HtpOk(D, l, c);
    }
    forall l | c in At(E.dhtps, l)
      ensures DhtpOk(E, l, c)
    {
      assert l != o ==> DhtpOk(D, l, c);
    }
    LinksFrame(D, E, c);
  }

  /** Unlinks c from the list of w, gives it the literals cl, and links it to its new first watch. */
  function Rewatch(D: Store, w: Lit, c: Cid, cl: Clause, keep: seq<Cid>, rest: seq<Cid>): Store
    requires |cl| >= 1
  {
    D.(cls := D.cls[c := cl], htps := Push(D.htps[w := keep + rest], cl[0], c))
  }

  lemma RewatchLinks(D: Store, w: Lit, c: Cid, cl: Clause, keep: seq<Cid>, rest: seq<Cid>)
    requires ListsOk(D) && c in D.watched && c in D.cls
    requires |D.cls[c]| >= 2 && D.cls[c][0] == w && |cl| >= 2 && cl[1] == D.cls[c][1]
    requires cl[0] != w && cl[0] != cl[1] && cl[1] != w
    requires At(D.htps, w) == keep + [c] + rest
    requires c !in At(D.dhtps, w)
    ensures ListsOk(Rewatch(D, w, c, cl, keep, rest))
  {
    hide At, AllNoDup, Push;
    var E := Rewatch(D, w, c, cl, keep, rest);
    var f := cl[0];
    CutList(D.htps, w, keep, c, rest);
    assert Located(D, c);
    assert c in At(D.htps, f) ==> HtpOk(D, f, c);
    assert c in At(D.dhtps, f) ==> DhtpOk(D, f, c);
    PushList(D.htps[w := keep + rest], f, c);
    forall l | c in At(E.htps, l)
      ensures HtpOk(E, l, c)
    {
      assert l != f ==> HtpOk(D, l, c);
    }
    forall l | c in At(E.dhtps, l)
      ensures DhtpOk(E, l, c)
    {
      assert DhtpOk(D, l, c);
    }
    LinksFrame(D, E, c);
  }

  function OtherWatch(cl: Clause, l: Lit): Lit
    requires |cl| >= 2
  {
    if cl[0] == l then cl[1] else cl[0]
  }

  /** Takes the first clause parked with l back onto the list of its other watch. */
  function Unpark(D: Store, l: Lit, c: Cid, rest: seq<Cid>): Store
    requires c in D.cls && |D.cls[c]| >= 2
  {
    D.(dhtps := D.dhtps[l := rest], htps := Push(D.htps, OtherWatch(D.cls[c], l), c))
  }

  lemma UnparkLinks(n: nat, D: Store, l: Lit, c: Cid, rest: seq<Cid>)
    requires ListsOk(D) && ClausesOk(n, D.cls) && At(D.dhtps, l) == [c] + rest
    ensures c in D.cls && |D.cls[c]| >= 2 && IsWatch(D.cls[c], l)
    ensures ListsOk(Unpark(D, l, c, rest))
  {
    hide At, AllNoDup, Push;
    assert [] + [c] + rest == [c] + rest && [] + rest == rest;
    CutList(D.dhtps, l, [], c, rest);
    assert DhtpOk(D, l, c) && Located(D, c) && ClauseOk(n, D.cls[c]);
    assert D.cls[c][0] != D.cls[c][1];
    var o := OtherWatch(D.cls[c], l);
    var E := Unpark(D, l, c, rest);
    PushList(D.htps, o, c);
    forall k | c in At(E.htps, k)
      ensures HtpOk(E, k, c)
    {
      assert k != o ==> HtpOk(D, k, c);
    }
    forall k | c in At(E.dhtps, k)
      ensures DhtpOk(E, k, c)
    {
      assert DhtpOk(D, k, c);
    }
    LinksFrame(D, E, c);
  }

  /** An empty list and a missing one are the same. */
  lemma ListSame(D: Store, l: Lit)
    requires ListsOk(D)
    ensures ListsOk(D.(dhtps := D.dhtps[l := At(D.dhtps, l)]))
  {
    var E := D.(dhtps := D.dhtps[l := At(D.dhtps, l)]);
    assert forall k :: At(E.dhtps, k) == At(D.dhtps, k);
    forall c | c in E.watched
      ensures Located(E, c)
    {
      assert Located(D, c);
    }
    forall k, c | c in At(E.htps, k)
      ensures HtpOk(E, k, c)
    {
      assert HtpOk(D, k, c);
    }
    forall k, c | c in At(E.dhtps, k)
      ensures DhtpOk(E, k, c)
    {
      assert DhtpOk(D, k, c);
    }
    assert AllNoDup(E.dhtps);
  }

  /** Links a new clause to its first two literals (or its only one), if asked to. */
  function Connect(D: Store, c: Cid, cl: Clause, connect: bool): Store {
    if !connect || |cl| == 0 then
      D.(cls := D.cls[c := cl])
    else if |cl| == 1 then
      D.(cls := D.cls[c := cl], watched := D.watched + {c}, htps := Push(D.htps, cl[0], c))
    else
      D.(cls := D.cls[c := cl], watched := D.watched + {c}, htps := Push(Push(D.htps, cl[0], c), cl[1], c))
  }

  /** Sets the learned bit of a new clause. */
  function Tag(D: Store, c: Cid, learned: bool): Store {
    if learned then D.(learned := D.learned + {c}) else D
  }

  lemma TagLinks(D: Store, c: Cid, learned: bool)
    requires ListsOk(D)
    ensures ListsOk(Tag(D, c, learned))
  {
    hide At;
    var E := Tag(D, c, learned);
    assert forall k :: k in E.watched ==> Located(D, k);
    assert forall l, k :: k in At(E.htps, l) ==> HtpOk(D, l, k);
    assert forall l, k :: k in At(E.dhtps, l) ==> DhtpOk(D, l, k);
  }

  lemma Unlinked(D: Store, c: Cid)
    requires ListsOk(D) && c !in D.watched
    ensures forall l :: c !in At(D.htps, l) && c !in At(D.dhtps, l)
  {
    forall l
      ensures c !in At(D.htps, l)
    {
      assert c in At(D.htps, l) ==> HtpOk(D, l, c);
    }
    forall l
      ensures c !in At(D.dhtps, l)
    {
      assert c in At(D.dhtps, l) ==> DhtpOk(D, l, c);
    }
  }

  lemma ConnectLinks(D: Store, c: Cid, cl: Clause, connect: bool)
    requires ListsOk(D) && c !in D.cls && c !in D.watched && NoDup(cl)
    ensures ListsOk(Connect(D, c, cl, connect))
  {
    hide At, AllNoDup, Push;
    var E := Connect(D, c, cl, connect);
    Unlinked(D, c);
    if connect && |cl| >= 1 {
      PushList(D.htps, cl[0], c);
      if |cl| >= 2 {
        PushList(Push(D.htps, cl[0], c), cl[1], c);
      }
    }
    LinksFrame(D, E, c);
  }

  // ---------- removing clauses ----------

  function Without<T>(s: seq<T>, del: set<T>): seq<T> {
    if s == [] then []
    else if s[0] in del then Without(s[1..], del)
    else [s[0]] + Without(s[1..], del)
  }

  lemma {:induction false} WithoutElems<T>(s: seq<T>, del: set<T>)
    ensures forall x :: x in Without(s, del) <==> x in s && x !in del
    ensures NoDup(s) ==> NoDup(Without(s, del))
    ensures |Without(s, del)| <= |s|
  {
    if s != [] {
      WithoutElems(s[1..], del);
      assert s == [s[0]] + s[1..];
      if NoDup(s) {
        assert s[0] !in s[1..];
        assert NoDup(s[1..]);
      }
    }
  }

  /** What is left stays in order. */
  lemma {:induction false} WithoutOrder<E>(s: seq<E>, del: set<E>, p: nat, q: nat) returns (i: nat, j: nat)
    requires p < q < |s| && s[p] !in del && s[q] !in del
    ensures i < j < |Without(s, del)| && Without(s, del)[i] == s[p] && Without(s, del)[j] == s[q]
  {
    if p > 0 {
      i, j := WithoutOrder(s[1..], del, p - 1, q - 1);
      if s[0] !in del {
        i, j := i + 1, j + 1;
      }
    } else {
      WithoutElems(s[1..], del);
      assert s[1..][q - 1] in s[1..];
      var rest := Without(s[1..], del);
      var k :| 0 <= k < |rest| && rest[k] == s[q];
      i, j := 0, k + 1;
    }
  }

  lemma {:induction false} WithoutBoth<E>(s: seq<E>, R: set<E>, D: set<E>)
    ensures Without(Without(s, R), D) == Without(s, R + D)
  {
    if s != [] {
      WithoutBoth(s[1..], R, D);
      if s[0] !in R {
        assert Without(s, R)[1..] == Without(s[1..], R);
      }
    }
  }

  lemma {:induction false} WithoutAll<E>(s: seq<E>, del: set<E>)
    requires forall x :: x in s ==> x in del
    ensures Without(s, del) == []
  {
    if s != [] {
      WithoutAll(s[1..], del);
    }
  }

  lemma WithoutNone<E>(del: set<E>)
    ensures Without([], del) == []
  {
  }

  lemma {:induction false} WithoutStep<E>(s: seq<E>, x: E, del: set<E>)
    ensures Without(s + [x], del) == Without(s, del) + (if x in del then [] else [x])
  {
    if s == [] {
      assert s + [x] == [x];
    } else {
      WithoutStep(s[1..], x, del);
      assert (s + [x])[1..] == s[1..] + [x];
    }
  }

  /** E is D without the clauses of del. */
  ghost predicate Purged(D: Store, E: Store, del: set<Cid>) {
    && (forall c :: c in E.cls <==> c in D.cls && c !in del)
    && (forall c :: c in E.cls && c in D.cls ==> E.cls[c] == D.cls[c])
    && E.watched == D.watched - del && E.learned == D.learned - del
    && (forall l :: At(E.htps, l) == Without(At(D.htps, l), del))
    && (forall l :: At(E.dhtps, l) == Without(At(D.dhtps, l), del))
  }

  lemma PurgeLinks(D: Store, E: Store, del: set<Cid>)
    requires ListsOk(D) && Purged(D, E, del)
    ensures ListsOk(E)
  {
    hide Without, At;
    forall l
      ensures NoDup(At(E.htps, l)) && NoDup(At(E.dhtps, l))
      ensures forall c :: c in At(E.htps, l) <==> c in At(D.htps, l) && c !in del
      ensures forall c :: c in At(E.dhtps, l) <==> c in At(D.dhtps, l) && c !in del
    {
      assert NoDup(At(D.htps, l)) && NoDup(At(D.dhtps, l));
      WithoutElems(At(D.htps, l), del);
      WithoutElems(At(D.dhtps, l), del);
    }
    forall l, c | c in At(E.htps, l)
      ensures HtpOk(E, l, c)
    {
      assert HtpOk(D, l, c);
    }
    forall l, c | c in At(E.dhtps, l)
      ensures DhtpOk(E, l, c)
    {
      assert DhtpOk(D, l, c);
    }
    forall c | c in E.watched
      ensures Located(E, c)
    {
      assert Located(D, c);
    }
  }
}
