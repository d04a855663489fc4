/** The heap from which the search takes its next decision variable. */
module Heap {
  import opened Arithmetic
  import opened Cnf
  import opened Trails
  import opened SoftFloat

  /** What the order of variables depends on, besides their index. */
  datatype Rank = Rank(moreimportant: bool, lessimportant: bool, score: Flt)

  /** Compares the ranks of variables a and b; at equal ranks the smaller index comes first. */
  function CmpRnk(rank: map<nat, Rank>, a: nat, b: nat): int
    requires a in rank && b in rank
  {
    var r, s := rank[a], rank[b];
    if !r.moreimportant && s.moreimportant then -1
    else if r.moreimportant && !s.moreimportant then 1
    else if !r.lessimportant && s.lessimportant then 1
    else if r.lessimportant && !s.lessimportant then -1
    else if r.score < s.score then -1
    else if r.score > s.score then 1
    else b - a
  }

  ghost predicate Greater(rank: map<nat, Rank>, a: nat, b: nat) {
    a in rank && b in rank && CmpRnk(rank, a, b) > 0
  }

  /** The comparison is a strict total order. */
  lemma TotalOrder(rank: map<nat, Rank>, a: nat, b: nat, c: nat)
    requires a in rank && b in rank && c in rank
    ensures CmpRnk(rank, a, b) > 0 <==> CmpRnk(rank, b, a) < 0
    ensures CmpRnk(rank, a, b) == 0 <==> a == b
    ensures Greater(rank, a, b) && Greater(rank, b, c) ==> Greater(rank, a, c)
  {
  }

  // ---------- heaps as sequences; position 0 is not used ----------

  ghost predicate Known(rank: map<nat, Rank>, h: seq<nat>) {
    |h| >= 1 && forall i :: 1 <= i < |h| ==> h[i] in rank
  }

  ghost predicate Ordered(rank: map<nat, Rank>, h: seq<nat>) {
    forall i :: 2 <= i < |h| ==> Greater(rank, h[i / 2], h[i])
  }

  /** Ordered, except that the variable at k may be greater than those above it. */
  ghost predicate OrderedUp(rank: map<nat, Rank>, h: seq<nat>, k: nat) {
    && 1 <= k < |h|
    && (forall i :: 2 <= i < |h| && i != k ==> Greater(rank, h[i / 2], h[i]))
    && (k >= 2 ==> forall i :: 2 <= i < |h| && i / 2 == k ==> Greater(rank, h[k / 2], h[i]))
  }

  /** Ordered, except that the variable at k may be less than those below it. */
  ghost predicate OrderedDown(rank: map<nat, Rank>, h: seq<nat>, k: nat) {
    && 1 <= k < |h|
    && (forall i :: 2 <= i < |h| && i / 2 != k ==> Greater(rank, h[i / 2], h[i]))
    && (k >= 2 ==> forall i :: 2 <= i < |h| && i / 2 == k ==> Greater(rank, h[k / 2], h[i]))
  }

  /** The variables of a heap at different positions differ, and pos is the inverse. */
  ghost predicate Placed(h: seq<nat>, pos: map<nat, nat>) {
    && |h| >= 1
    && (forall i :: 1 <= i < |h| ==> h[i] in pos && pos[h[i]] == i)
    && (forall v :: v in pos && pos[v] > 0 ==> pos[v] < |h| && h[pos[v]] == v)
  }

  function Exchange(h: seq<nat>, i: nat, j: nat): seq<nat>
    requires i < |h| && j < |h|
  {
    h[i := h[j]][j := h[i]]
  }

  lemma UpStep(rank: map<nat, Rank>, h: seq<nat>, k: nat)
    requires Known(rank, h) && OrderedUp(rank, h, k) && k >= 2 && Greater(rank, h[k], h[k / 2])
    ensures OrderedUp(rank, Exchange(h, k, k / 2), k / 2)
  {
    hide CmpRnk;
    var p := k / 2;
    var g := Exchange(h, k, p);
    forall i | 2 <= i < |g| && i != p
      ensures Greater(rank, g[i / 2], g[i])
    {
      assert i != k ==> Greater(rank, h[i / 2], h[i]);
      if i / 2 == p && i != k {
        Transitive(rank, h[k], h[p], h[i]);
      }
    }
    if p >= 2 {
      forall i | 2 <= i < |g| && i / 2 == p
        ensures Greater(rank, g[p / 2], g[i])
      {
        assert Greater(rank, h[p / 2], h[p]);
        if i != k {
          Transitive(rank, h[p / 2], h[p], h[i]);
        }
      }
    }
  }

  lemma Transitive(rank: map<nat, Rank>, a: nat, b: nat, c: nat)
    requires Greater(rank, a, b) && Greater(rank, b, c)
    ensures Greater(rank, a, c)
  {
  }

  lemma UpDone(rank: map<nat, Rank>, h: seq<nat>, k: nat)
    requires k < |h| && (k >= 2 ==> Greater(rank, h[k / 2], h[k]))
    ensures OrderedUp(rank, h, k) ==> Ordered(rank, h)
  {
  }

  /** c is the greatest of the variables directly below k, and greater than the one at k. */
  lemma DownStep(rank: map<nat, Rank>, h: seq<nat>, k: nat, c: nat)
    requires Known(rank, h) && OrderedDown(rank, h, k) && 2 <= c < |h| && c / 2 == k && Greater(rank, h[c], h[k])
    requires forall i :: 2 <= i < |h| && i / 2 == k && i != c ==> Greater(rank, h[c], h[i])
    ensures OrderedDown(rank, Exchange(h, k, c), c)
  {
    hide CmpRnk;
    var g := Exchange(h, k, c);
    forall i | 2 <= i < |g| && i / 2 != c
      ensures Greater(rank, g[i / 2], g[i])
    {
      if i / 2 != k {
        assert Greater(rank, h[i / 2], h[i]);
        if i == k {
          assert Greater(rank, h[k / 2], h[c]);
        }
      }
    }
    forall i | 2 <= i < |g| && i / 2 == c
      ensures Greater(rank, g[c / 2], g[i])
    {
      assert Greater(rank, h[c], h[i]);
    }
  }

  lemma DownDone(rank: map<nat, Rank>, h: seq<nat>, k: nat)
    requires k < |h| && forall i :: 2 <= i < |h| && i / 2 == k ==> Greater(rank, h[k], h[i])
    ensures OrderedDown(rank, h, k) ==> Ordered(rank, h)
  {
  }

  /** The variable at the top is the greatest. */
  lemma {:induction false} TopGreatest(rank: map<nat, Rank>, h: seq<nat>, i: nat)
    requires Known(rank, h) && Ordered(rank, h) && 2 <= i < |h|
    ensures Greater(rank, h[1], h[i])
    decreases i
  {
    hide CmpRnk;
    if i / 2 > 1 {
      TopGreatest(rank, h, i / 2);
      Transitive(rank, h[1], h[i / 2], h[i]);
    }
  }

  lemma PlacedExchange(h: seq<nat>, pos: map<nat, nat>, i: nat, j: nat)
    requires Placed(h, pos) && 1 <= i < |h| && 1 <= j < |h|
    ensures Placed(Exchange(h, i, j), pos[h[i] := j][h[j] := i])
  {
  }

  lemma PopOrdered(rank: map<nat, Rank>, h: seq<nat>)
    requires Known(rank, h) && |h| > 2
    ensures Ordered(rank, h) ==> OrderedDown(rank, h[..|h| - 1][1 := h[|h| - 1]], 1)
  {
    hide CmpRnk;
    var g := h[..|h| - 1][1 := h[|h| - 1]];
    if Ordered(rank, h) {
      forall i | 2 <= i < |g| && i / 2 != 1
        ensures Greater(rank, g[i / 2], g[i])
      {
        assert Greater(rank, h[i / 2], h[i]);
      }
    }
  }

  lemma PopPlaced(h: seq<nat>, pos: map<nat, nat>)
    requires Placed(h, pos) && |h| >= 2
    ensures |h| > 2 ==> Placed(h[..|h| - 1][1 := h[|h| - 1]], pos[h[1] := 0][h[|h| - 1] := 1])
    ensures |h| > 2 ==> h[|h| - 1] in pos && pos[h[|h| - 1]] > 0 && h[|h| - 1] != h[1]
    ensures |h| == 2 ==> Placed(h[..1], pos[h[1] := 0])
  {
  }

  lemma PushOrdered(rank: map<nat, Rank>, h: seq<nat>, v: nat)
    requires Known(rank, h) && v in rank
    ensures Known(rank, h + [v]) && |h| >= 1
    ensures Ordered(rank, h) ==> OrderedUp(rank, h + [v], |h|)
  {
    hide CmpRnk;
    var g := h + [v];
    if Ordered(rank, h) {
      forall i | 2 <= i < |g| && i != |h|
        ensures Greater(rank, g[i / 2], g[i])
      {
        assert Greater(rank, h[i / 2], h[i]);
      }
    }
  }

  /** Raising one variable can only violate the order above it. */
  lemma RaisedOrdered(rank: map<nat, Rank>, rank': map<nat, Rank>, h: seq<nat>, k: nat)
    requires Known(rank, h) && Ordered(rank, h) && 1 <= k < |h| && rank.Keys == rank'.Keys
    requires forall u :: u in rank && u != h[k] ==> rank'[u] == rank[u]
    requires forall u :: u in rank && u != h[k] && Greater(rank, h[k], u) ==> Greater(rank', h[k], u)
    requires forall i :: 1 <= i < |h| && i != k ==> h[i] != h[k]
    ensures OrderedUp(rank', h, k)
  {
    hide CmpRnk;
    assert forall a, b :: a in rank && b in rank && a != h[k] && b != h[k] ==>
      (Greater(rank', a, b) <==> Greater(rank, a, b)) by {
      SameGreater(rank, rank', h[k]);
    }
    if k >= 2 {
      forall i | 2 <= i < |h| && i / 2 == k
        ensures Greater(rank', h[k / 2], h[i])
      {
        Transitive(rank, h[k / 2], h[k], h[i]);
      }
    }
  }

  lemma SameGreater(rank: map<nat, Rank>, rank': map<nat, Rank>, v: nat)
    requires rank.Keys == rank'.Keys && forall u :: u in rank && u != v ==> rank'[u] == rank[u]
    ensures forall a, b :: a in rank && b in rank && a != v && b != v ==>
      (Greater(rank', a, b) <==> Greater(rank, a, b))
  {
  }

  /** Lowering one variable can only violate the order below it. */
  lemma LoweredOrdered(rank: map<nat, Rank>, rank': map<nat, Rank>, h: seq<nat>, k: nat)
    requires Known(rank, h) && Ordered(rank, h) && 1 <= k < |h| && rank.Keys == rank'.Keys
    requires forall u :: u in rank && u != h[k] ==> rank'[u] == rank[u]
    requires forall u :: u in rank && u != h[k] && Greater(rank, u, h[k]) ==> Greater(rank', u, h[k])
    requires forall i :: 1 <= i < |h| && i != k ==> h[i] != h[k]
    ensures OrderedDown(rank', h, k)
  {
    hide CmpRnk;
    SameGreater(rank, rank', h[k]);
    if k >= 2 {
      forall i | 2 <= i < |h| && i / 2 == k
        ensures Greater(rank', h[k / 2], h[i])
      {
        Transitive(rank, h[k / 2], h[k], h[i]);
      }
    }
  }

  /** The heap while variable v is on its way: position k is where it goes next. */
  ghost predicate Hole(rank: map<nat, Rank>, heap: seq<nat>, pos: map<nat, nat>, v: nat, k: nat) {
    && 1 <= k < |heap| && v in pos && pos.Keys == rank.Keys
    && Known(rank, heap[k := v]) && Placed(heap[k := v], pos[v := k])
  }

  lemma MoveHole(rank: map<nat, Rank>, heap: seq<nat>, pos: map<nat, nat>, v: nat, k: nat, j: nat)
    requires Hole(rank, heap, pos, v, k) && 1 <= j < |heap| && j != k
    ensures heap[j] in rank && heap[j] != v && heap[j] in pos && pos[heap[j]] > 0
    ensures Hole(rank, heap[k := heap[j]], pos[heap[j] := k], v, j)
    ensures heap[k := heap[j]][j := v] == Exchange(heap[k := v], k, j)
  {
    var H, P := heap[k := v], pos[v := k];
    var u := heap[j];
    assert H[j] == u && u in P && P[u] == j;
    PlacedExchange(H, P, k, j);
    assert heap[k := u][j := v] == Exchange(H, k, j);
    assert pos[u := k][v := j] == P[H[k] := j][H[j] := k];
  }

  lemma HoleStart(rank: map<nat, Rank>, heap: seq<nat>, pos: map<nat, nat>, v: nat)
    requires Known(rank, heap) && Placed(heap, pos) && pos.Keys == rank.Keys && v in pos && pos[v] > 0
    ensures pos[v] < |heap| && Hole(rank, heap, pos, v, pos[v]) && heap[pos[v] := v] == heap
  {
    assert heap[pos[v] := v] == heap && pos[v := pos[v]] == pos;
  }

  lemma NotGreater(rank: map<nat, Rank>, u: nat, v: nat)
    requires u in rank && v in rank && u != v && !(CmpRnk(rank, u, v) > 0)
    ensures Greater(rank, v, u)
  {
  }

  lemma HoleUp(rank: map<nat, Rank>, heap: seq<nat>, pos: map<nat, nat>, v: nat, k: nat)
    requires Hole(rank, heap, pos, v, k) && k >= 2 && Greater(rank, v, heap[k / 2])
    ensures heap[k / 2] in pos && Hole(rank, heap[k := heap[k / 2]], pos[heap[k / 2] := k], v, k / 2)
    ensures OrderedUp(rank, heap[k := v], k) ==> OrderedUp(rank, heap[k := heap[k / 2]][k / 2 := v], k / 2)
  {
    hide OrderedUp, Greater;
    MoveHole(rank, heap, pos, v, k, k / 2);
    if OrderedUp(rank, heap[k := v], k) {
      UpStep(rank, heap[k := v], k);
    }
  }

  lemma HoleEnd(rank: map<nat, Rank>, heap: seq<nat>, pos: map<nat, nat>, v: nat, k: nat)
    requires Hole(rank, heap, pos, v, k)
    ensures Known(rank, heap[k := v]) && Placed(heap[k := v], pos[v := k])
  {
  }

  /** The variables directly below the hole. */
  lemma HoleBelow(rank: map<nat, Rank>, heap: seq<nat>, pos: map<nat, nat>, r: nat, k: nat)
    requires Hole(rank, heap, pos, r, k)
    ensures forall i :: 1 <= i < |heap| && i != k ==>
      heap[i] in rank && heap[i] != r && heap[i] in pos && pos[heap[i]] > 0
    ensures forall i, j :: 1 <= i < j < |heap| && i != k && j != k ==> heap[i] != heap[j]
    ensures forall i :: 2 <= i < |heap| && i / 2 == k ==> i == 2 * k || i == 2 * k + 1
  {
    forall i | 1 <= i < |heap| && i != k
      ensures heap[i] in rank && heap[i] != r && heap[i] in pos && pos[heap[i]] > 0 && pos[heap[i]] == i
    {
      MoveHole(rank, heap, pos, r, k, i);
      assert heap[k := r][i] == heap[i];
    }
  }

  lemma HoleDown(rank: map<nat, Rank>, heap: seq<nat>, pos: map<nat, nat>, r: nat, k: nat, c: nat)
    requires Hole(rank, heap, pos, r, k) && 2 <= c < |heap| && c / 2 == k && Greater(rank, heap[c], r)
    requires forall i :: 2 <= i < |heap| && i / 2 == k && i != c ==> Greater(rank, heap[c], heap[i])
    ensures heap[c] in pos && Hole(rank, heap[k := heap[c]], pos[heap[c] := k], r, c)
    ensures OrderedDown(rank, heap[k := r], k) ==> OrderedDown(rank, heap[k := heap[c]][c := r], c)
  {
    hide OrderedDown, Greater;
    MoveHole(rank, heap, pos, r, k, c);
    if OrderedDown(rank, heap[k := r], k) {
      DownStep(rank, heap[k := r], k, c);
    }
  }

  /** Of the variables directly below position rpos, the position of the greatest one that is greater than r; 0 if
      there is none. */
  method GreaterChild(rank: map<nat, Rank>, heap: seq<nat>, r: nat, rpos: nat) returns (cpos: nat)
    requires 1 <= rpos < |heap| && r in rank
    requires forall i :: 2 <= i < |heap| && i / 2 == rpos ==> i != rpos && heap[i] in rank && heap[i] != r
    requires 2 * rpos + 1 < |heap| ==> heap[2 * rpos] != heap[2 * rpos + 1]
    ensures cpos == 0 ==> forall i :: 2 <= i < |heap| && i / 2 == rpos ==> Greater(rank, r, heap[i])
    ensures cpos != 0 ==> 2 <= cpos < |heap| && cpos / 2 == rpos && Greater(rank, heap[cpos], r)
    ensures cpos != 0 ==>
      forall i :: 2 <= i < |heap| && i / 2 == rpos && i != cpos ==> Greater(rank, heap[cpos], heap[i])
  {
    hide CmpRnk;
    var end := |heap|;
    cpos := 2 * rpos;
    if cpos >= end {
      return 0;
    }
    var opos := cpos + 1;
    var child := heap[cpos];
    TotalOrder(rank, child, r, r);
    if opos < end {
      TotalOrder(rank, child, heap[opos], r);
      TotalOrder(rank, heap[opos], r, child);
      TotalOrder(rank, heap[opos], child, r);
      TotalOrder(rank, child, r, heap[opos]);
      TotalOrder(rank, r, child, child);
      TotalOrder(rank, r, heap[opos], child);
    }
    TotalOrder(rank, r, child, child);
    if CmpRnk(rank, r, child) < 0 {
      if opos < end {
        var other := heap[opos];
        if CmpRnk(rank, child, other) < 0 {
          cpos := opos;
        }
      }
    } else if opos < end {
      child := heap[opos];
      if CmpRnk(rank, r, child) >= 0 {
        return 0;
      }
      cpos := opos;
    } else {
      return 0;
    }
  }

  // ---------- scaling scores down ----------

  function RescaledRank(r: Rank): Rank {
    if r.score == INFFLT then r else r.(score := Rescored(r.score))
  }

  function Rescaled(rank: map<nat, Rank>): map<nat, Rank> {
    map v | v in rank :: RescaledRank(rank[v])
  }

  /** Variable a is greater than b, but not after the scores are scaled down: both scores become the least number, or
      that of a becomes zero. */
  predicate Collapses(rank: map<nat, Rank>, a: nat, b: nat)
    requires a in rank && b in rank
  {
    var r, s := rank[a], rank[b];
    && r.moreimportant == s.moreimportant && r.lessimportant == s.lessimportant && s.score < r.score
    && (|| (r.score == 90 * FLTMSB && (s.score > 0 || b < a))
        || (0 < s.score < 90 * FLTMSB && r.score <= 90 * FLTMSB + 1 && b < a))
  }

  lemma RescaledGreater(rank: map<nat, Rank>, a: nat, b: nat)
    requires Greater(rank, a, b)
    ensures Greater(Rescaled(rank), a, b) <==> !Collapses(rank, a, b)
  {
  }

  /** Scaling scores down keeps a heap ordered exactly if no variable collapses with the one above it. */
  lemma RescaledOrdered(rank: map<nat, Rank>, h: seq<nat>)
    requires Known(rank, h) && Ordered(rank, h)
    ensures Ordered(Rescaled(rank), h) <==> forall i :: 2 <= i < |h| ==> !Collapses(rank, h[i / 2], h[i])
  {
    hide Collapses, Rescaled, Greater;
    forall i | 2 <= i < |h|
      ensures Greater(Rescaled(rank), h[i / 2], h[i]) <==> !Collapses(rank, h[i / 2], h[i])
    {
      RescaledGreater(rank, h[i / 2], h[i]);
    }
  }

  /** Two variables with small scores, the second one in front. */
  lemma RescaledUnordered()
    ensures var rank, h := map[1 := Rank(false, false, FLTMSB), 2 := Rank(false, false, 2 * FLTMSB)], [0, 2, 1];
      Ordered(rank, h) && !Ordered(Rescaled(rank), h)
  {
    var rank, h := map[1 := Rank(false, false, FLTMSB), 2 := Rank(false, false, 2 * FLTMSB)], [0, 2, 1];
    assert Greater(rank, h[1], h[2]);
    assert !Greater(Rescaled(rank), h[1], h[2]);
    assert h[2 / 2] == h[1];
  }

  ghost predicate SomeCollapse(rank: map<nat, Rank>, h: seq<nat>) {
    Known(rank, h) && exists i :: 2 <= i < |h| && Collapses(rank, h[i / 2], h[i])
  }

  lemma RescaledSorted(rank: map<nat, Rank>, h: seq<nat>)
    requires Known(rank, h) && Ordered(rank, h)
    ensures Ordered(Rescaled(rank), h) <==> !SomeCollapse(rank, h)
  {
    hide Collapses, Rescaled, Ordered;
    RescaledOrdered(rank, h);
  }

  /** How often all scores were scaled down, and whether a variable collapsed then with the one above it. */
  datatype Past = Past(rescalings: nat, collapsed: bool)

  /** No variables collapsed from p to q unless scores were scaled down. */
  ghost predicate Later(p: Past, q: Past) {
    p.rescalings <= q.rescalings && (p.collapsed ==> q.collapsed) && (p.rescalings == q.rescalings ==> p == q)
  }

  /** The scores of a heap, and what they are bumped by. */
  datatype Scores = Scores(past: Past, vinc: Flt, rank: map<nat, Rank>)

  /** b comes from a when the score of v becomes score, which may make all scores scaled down. */
  ghost predicate BumpedTo(a: Scores, v: nat, score: Flt, b: Scores)
    requires v in a.rank
  {
    var bumped := a.rank[v := a.rank[v].(score := score)];
    && IsFloor(score, Value(a.rank[v].score) + Value(a.vinc), 1)
    && if score > LSCORE then
        && b.rank == Rescaled(bumped) && b.vinc == Rescored(a.vinc)
        && b.past.rescalings == a.past.rescalings + 1 && (a.past.collapsed ==> b.past.collapsed)
      else
        b == a.(rank := bumped)
  }

  ghost predicate BumpedBy(a: Scores, v: nat, b: Scores) {
    v in a.rank && exists score: Flt :: BumpedTo(a, v, score, b)
  }

  /** b comes from a when the variables of a list are bumped one after the other. */
  ghost predicate BumpedInTurn(a: Scores, order: seq<nat>, b: Scores)
    decreases |order|
  {
    if order == [] then a == b
    else
      var last := |order| - 1;
      exists m: Scores :: BumpedInTurn(a, order[..last], m) && BumpedBy(m, order[last], b)
  }

  ghost predicate Lists(order: seq<nat>, B: set<nat>) {
    NoDup(order) && forall v :: v in order <==> v in B
  }

  /** Exactly the variables of B are bumped, once each. */
  ghost predicate Bumps(a: Scores, b: Scores, B: set<nat>) {
    exists order: seq<nat> :: Lists(order, B) && BumpedInTurn(a, order, b)
  }

  lemma BumpsNothing(a: Scores)
    ensures Bumps(a, a, {})
  {
    assert Lists([], {}) && BumpedInTurn(a, [], a);
  }

  lemma BumpsOne(a: Scores, v: nat, b: Scores)
    requires BumpedBy(a, v, b)
    ensures Bumps(a, b, {v})
  {
    hide BumpedBy;
    assert [v][..0] == [];
    assert BumpedInTurn(a, [v][..0], a);
    assert Lists([v], {v}) && BumpedInTurn(a, [v], b);
  }

  lemma {:induction false} InTurn(a: Scores, b: Scores, c: Scores, order: seq<nat>, more: seq<nat>)
    requires BumpedInTurn(a, order, b) && BumpedInTurn(b, more, c)
    ensures BumpedInTurn(a, order + more, c)
    decreases |more|
  {
    hide BumpedBy;
    if more == [] {
      assert order + more == order;
    } else {
      var last := |more| - 1;
      var m: Scores :| BumpedInTurn(b, more[..last], m) && BumpedBy(m, more[last], c);
      InTurn(a, b, m, order, more[..last]);
      assert (order + more)[..|order + more| - 1] == order + more[..last];
    }
  }

  lemma ListsBoth(order: seq<nat>, more: seq<nat>, B: set<nat>, C: set<nat>)
    requires Lists(order, B) && Lists(more, C) && B !! C
    ensures Lists(order + more, B + C)
  {
    var both := order + more;
    forall i, j | 0 <= i < j < |both|
      ensures both[i] != both[j]
    {
      assert i < |order| ==> both[i] in order && both[i] in B;
      assert j >= |order| ==> both[j] in more && both[j] in C;
    }
  }

  lemma BumpsOn(a: Scores, b: Scores, c: Scores, B: set<nat>, C: set<nat>)
    requires Bumps(a, b, B) && Bumps(b, c, C) && B !! C
    ensures Bumps(a, c, B + C)
  {
    hide BumpedInTurn;
    var order: seq<nat> :| Lists(order, B) && BumpedInTurn(a, order, b);
    var more: seq<nat> :| Lists(more, C) && BumpedInTurn(b, more, c);
    InTurn(a, b, c, order, more);
    ListsBoth(order, more, B, C);
  }

  ghost predicate BumpedRank(r: Rank, s: Rank, vinc: Flt) {
    s == r.(score := s.score) && IsFloor(s.score, Value(r.score) + Value(vinc), 1)
  }

  lemma BumpedOne(a: Scores, v: nat, b: Scores)
    requires BumpedBy(a, v, b)
    ensures Later(a.past, b.past) && b.rank.Keys == a.rank.Keys && v in a.rank
    ensures b.past == a.past ==>
      && b.vinc == a.vinc && BumpedRank(a.rank[v], b.rank[v], a.vinc)
      && forall u :: u in a.rank && u != v ==> b.rank[u] == a.rank[u]
  {
    hide IsFloor, Rescored, RescaledRank;
  }

  lemma {:induction false} InTurnLater(a: Scores, order: seq<nat>, b: Scores)
    requires BumpedInTurn(a, order, b)
    ensures Later(a.past, b.past) && b.rank.Keys == a.rank.Keys && forall v :: v in order ==> v in a.rank
    ensures b.past == a.past ==> b.vinc == a.vinc && forall v :: v in a.rank && v !in order ==> b.rank[v] == a.rank[v]
    decreases |order|
  {
    hide BumpedBy, BumpedRank;
    if order != [] {
      var last := |order| - 1;
      var m: Scores :| BumpedInTurn(a, order[..last], m) && BumpedBy(m, order[last], b);
      InTurnLater(a, order[..last], m);
      BumpedOne(m, order[last], b);
    }
  }

  lemma {:induction false} InTurnRanks(a: Scores, order: seq<nat>, b: Scores)
    requires BumpedInTurn(a, order, b) && NoDup(order) && b.past == a.past
    ensures b.rank.Keys == a.rank.Keys
    ensures forall v :: v in order ==> v in a.rank && BumpedRank(a.rank[v], b.rank[v], a.vinc)
    decreases |order|
  {
    hide BumpedBy, BumpedRank;
    if order != [] {
      var last := |order| - 1;
      var m: Scores :| BumpedInTurn(a, order[..last], m) && BumpedBy(m, order[last], b);
      InTurnLater(a, order[..last], m);
      BumpedOne(m, order[last], b);
      InTurnRanks(a, order[..last], m);
    }
  }

  /** Without scaling down, the score of each variable of B becomes the floor of its exact sum with the increment, and
      all others stay. */
  lemma BumpsScores(a: Scores, b: Scores, B: set<nat>)
    requires Bumps(a, b, B)
    ensures Later(a.past, b.past) && b.rank.Keys == a.rank.Keys && B <= a.rank.Keys
    ensures b.past.rescalings == a.past.rescalings ==>
      && b.vinc == a.vinc
      && forall v :: v in a.rank ==> if v in B then BumpedRank(a.rank[v], b.rank[v], a.vinc) else b.rank[v] == a.rank[v]
  {
    hide BumpedRank;
    var order: seq<nat> :| Lists(order, B) && BumpedInTurn(a, order, b);
    InTurnLater(a, order, b);
    if b.past.rescalings == a.past.rescalings {
      InTurnRanks(a, order, b);
    }
  }

  /** The floor of the exact product with 1.05, unless that underflows. */
  ghost predicate Increased(vinc: Flt, next: Flt) {
    if Multipliable(vinc, IFVINC) then IsFloor(next, Product(vinc, IFVINC), Pow2(128)) else next == EPSFLT
  }

  /** The variables of B are bumped, and then those of fixed get the greatest score. */
  ghost predicate BumpsAndFixes(a: Scores, b: Scores, B: set<nat>, fixed: set<nat>) {
    exists m: Scores :: Bumps(a, m, B) && b == m.(rank := WithFixed(m.rank, fixed))
  }

  ghost function WithFixed(rank: map<nat, Rank>, fixed: set<nat>): map<nat, Rank> {
    map v | v in rank :: if v in fixed then rank[v].(score := INFFLT) else rank[v]
  }

  lemma FixesAre(a: Scores, m: Scores, b: Scores, B: set<nat>, fixed: set<nat>)
    requires Bumps(a, m, B) && b == m.(rank := WithFixed(m.rank, fixed))
    ensures BumpsAndFixes(a, b, B, fixed) && Later(a.past, b.past)
  {
    hide Bumps, Later;
    BumpsScores(a, m, B);
  }

  /** The same after the increment was raised. */
  ghost predicate BumpsMore(a: Scores, b: Scores, B: set<nat>, fixed: set<nat>) {
    exists vinc: Flt :: Increased(a.vinc, vinc) && BumpsAndFixes(a.(vinc := vinc), b, B, fixed)
  }

  lemma FixOne(rank: map<nat, Rank>, v: nat)
    requires v in rank
    ensures WithFixed(rank, {}) == rank && WithFixed(rank, {v}) == rank[v := rank[v].(score := INFFLT)]
  {
  }

  lemma FixNone(rank: map<nat, Rank>)
    ensures WithFixed(rank, {}) == rank
  {
  }

  /** The variables after n up to m are new and have no score. */
  ghost predicate NewRanks(rank: map<nat, Rank>, rank': map<nat, Rank>, n: nat, m: nat) {
    && (forall v :: v in rank' <==> v in rank || n < v <= m)
    && forall v :: v in rank' ==> rank'[v] == if n < v <= m then Rank(false, false, 0) else rank[v]
  }

  class VarHeap {
    var maxVar: nat
    var heap: seq<nat>              // variables, from position 1 on
    var pos: map<nat, nat>          // where a variable is in the heap; 0 if it is not
    var rank: map<nat, Rank>
    var vinc: Flt                   // what a score is bumped by
    ghost var past: Past

    /** Every variable has a rank and a position, and positions are inverse to the array. */
    ghost predicate Shaped()
      reads `maxVar, `heap, `pos, `rank
    {
      && Known(rank, heap) && Placed(heap, pos) && pos.Keys == rank.Keys
      && forall v :: v in rank <==> 1 <= v <= maxVar
    }

    ghost predicate Sorted()
      reads `heap, `rank
    {
      Ordered(rank, heap)
    }

    /** The heap is ordered unless variables collapsed. */
    ghost predicate Valid()
      reads `maxVar, `heap, `pos, `rank, `past
    {
      Shaped() && (!past.collapsed ==> Sorted()) && (past.collapsed ==> past.rescalings > 0)
    }

    predicate OnHeap(v: nat)
      reads `pos
    {
      v in pos && pos[v] > 0
    }

    /** The variables up to n are known, and those of M are on the heap. */
    ghost predicate Holding(n: nat, M: set<nat>)
      reads `maxVar, `heap, `pos, `rank, `past
    {
      Valid() && maxVar == n && forall v :: v in M <==> OnHeap(v)
    }

    /** Every variable without a value is on the heap. */
    ghost predicate Waiting(level: map<int, nat>)
      reads `pos, `rank
    {
      forall v :: v in rank && Undef(level, v) ==> OnHeap(v)
    }

    ghost function Scored(): Scores
      reads `past, `vinc, `rank
    {
      Scores(past, vinc, rank)
    }

    lemma WaitingMore(level: map<int, nat>, level': map<int, nat>)
      requires Waiting(level) && forall l :: l in level ==> l in level'
      ensures Waiting(level')
    {
    }

    constructor ()
      ensures Valid() && Sorted() && past == Past(0, false) && maxVar == 0 && forall level :: Waiting(level)
      ensures rank == map[] && vinc == VINC
    {
      maxVar, heap, pos, rank, vinc := 0, [0], map[], map[], VINC;
      past := Past(0, false);
    }

    /** Moves a variable up to where it belongs. */
    method Hup(v: nat)
      requires Shaped() && OnHeap(v)
      modifies `heap, `pos
      ensures Shaped() && |heap| == |old(heap)|
      ensures old(OrderedUp(rank, heap, pos[v])) ==> Sorted()
      ensures forall u :: OnHeap(u) <==> old(OnHeap(u))
    {
      hide Ordered, OrderedUp, CmpRnk, Hole, Greater, Known, Placed;
      var vpos := pos[v];
      HoleStart(rank, heap, pos, v);
      while vpos > 1
        invariant 1 <= vpos < |heap| == |old(heap)| && v in rank && pos.Keys == rank.Keys
        invariant Hole(rank, heap, pos, v, vpos)
        invariant old(OrderedUp(rank, heap, pos[v])) ==> OrderedUp(rank, heap[vpos := v], vpos)
        invariant forall u :: u in pos && u != v ==> (pos[u] > 0 <==> old(OnHeap(u)))
      {
        var upos := vpos / 2;
        var u := heap[upos];
        MoveHole(rank, heap, pos, v, vpos, upos);
        if CmpRnk(rank, u, v) > 0 {
          break;
        }
        NotGreater(rank, u, v);
        HoleUp(rank, heap, pos, v, vpos);
        heap := heap[vpos := u];
        pos := pos[u := vpos];
        vpos := upos;
      }
      HoleEnd(rank, heap, pos, v, vpos);
      heap := heap[vpos := v];
      pos := pos[v := vpos];
      UpDone(rank, heap, vpos);
    }

    /** Moves a variable down to where it belongs. */
    method Hdown(r: nat)
      requires Shaped() && OnHeap(r)
      modifies `heap, `pos
      ensures Shaped() && |heap| == |old(heap)|
      ensures old(OrderedDown(rank, heap, pos[r])) ==> Sorted()
      ensures forall u :: OnHeap(u) <==> old(OnHeap(u))
    {
      hide Ordered, OrderedDown, CmpRnk, Hole, Greater, Known, Placed;
      var end := |heap|;
      var rpos := pos[r];
      HoleStart(rank, heap, pos, r);
      while true
        invariant 1 <= rpos < |heap| == end == |old(heap)| && r in rank && pos.Keys == rank.Keys
        invariant Hole(rank, heap, pos, r, rpos)
        invariant old(OrderedDown(rank, heap, pos[r])) ==> OrderedDown(rank, heap[rpos := r], rpos)
        invariant forall u :: u in pos && u != r ==> (pos[u] > 0 <==> old(OnHeap(u)))
        decreases end - rpos
      {
        HoleBelow(rank, heap, pos, r, rpos);
        var cpos := GreaterChild(rank, heap, r, rpos);
        if cpos == 0 {
          break;
        }
        var child := heap[cpos];
        HoleDown(rank, heap, pos, r, rpos, cpos);
        heap := heap[rpos := child];
        pos := pos[child := rpos];
        rpos := cpos;
      }
      HoleEnd(rank, heap, pos, r, rpos);
      pos := pos[r := rpos];
      heap := heap[rpos := r];
      DownDone(rank, heap, rpos);
    }

    method Hpush(v: nat)
      requires Shaped() && v in rank && !OnHeap(v)
      modifies `heap, `pos
      ensures Shaped() && (old(Sorted()) ==> Sorted())
      ensures forall u :: OnHeap(u) <==> u == v || old(OnHeap(u))
    {
      hide Ordered, OrderedUp, Known, Placed;
      PushOrdered(rank, heap, v);
      PushPlaced(heap, pos, v);
      ghost var n := |heap|;
      pos := pos[v := |heap|];
      heap := heap + [v];
      assert pos[v] == n;
      Hup(v);
    }

    /** Takes the variable at the top, the greatest, off the heap. */
    method Hpop() returns (res: nat)
      requires Shaped() && |heap| > 1
      modifies `heap, `pos
      ensures Shaped() && |heap| == |old(heap)| - 1
      ensures res == old(heap)[1] && old(OnHeap(res))
      ensures forall u :: OnHeap(u) <==> u != res && old(OnHeap(u))
      ensures old(Sorted()) ==> Sorted() && forall u :: old(OnHeap(u)) && u != res ==> Greater(rank, res, u)
    {
      hide Ordered, OrderedDown, Known, Placed, Greater;
      TopAll(rank, heap, pos);
      PopPlaced(heap, pos);
      res := heap[1];
      pos := pos[res := 0];
      var end := |heap| - 1;
      if end == 1 {
        heap := heap[..1];
        OneOrdered(rank, heap);
        return;
      }
      PopOrdered(rank, heap);
      PopKnown(rank, heap);
      var last := heap[end];
      heap := heap[..end];
      pos := pos[last := 1];
      heap := heap[1 := last];
      Hdown(last);
    }

    // ---------- operations of the solver ----------

    /** A new variable is on the heap. */
    method IncMaxVar()
      requires Valid()
      modifies `maxVar, `rank, `heap, `pos
      ensures Valid() && (old(Sorted()) ==> Sorted())
      ensures maxVar == old(maxVar) + 1 && rank == old(rank)[maxVar := Rank(false, false, 0)]
      ensures forall u :: OnHeap(u) <==> u == maxVar || old(OnHeap(u))
    {
      hide Ordered, Known, Placed;
      maxVar := maxVar + 1;
      NewVar(rank, heap, pos, maxVar, Rank(false, false, 0));
      rank := rank[maxVar := Rank(false, false, 0)];
      pos := pos[maxVar := 0];
      Hpush(maxVar);
    }

    /** A variable that loses its value is put back on the heap. */
    method PutBack(v: nat)
      requires Valid() && v in rank
      modifies `heap, `pos
      ensures Valid() && (old(Sorted()) ==> Sorted())
      ensures forall u :: OnHeap(u) <==> u == v || old(OnHeap(u))
    {
      hide Ordered, Known, Placed;
      if pos[v] == 0 {
        Hpush(v);
      }
    }

    /** A variable gets a higher rank. */
    method Raise(v: nat, r: Rank)
      requires Valid() && v in rank
      requires r.score >= rank[v].score && (rank[v].moreimportant ==> r.moreimportant)
      requires r.lessimportant == rank[v].lessimportant
      modifies `rank, `heap, `pos
      ensures Valid() && (old(Sorted()) ==> Sorted()) && rank == old(rank)[v := r]
      ensures forall u :: OnHeap(u) <==> old(OnHeap(u))
    {
      hide Ordered, OrderedUp, Known, Placed, CmpRnk;
      ghost var rank' := rank[v := r];
      RaisedGreater(rank, rank', v);
      KnownAs(rank, rank', heap);
      if pos[v] > 0 {
        PlacedOnce(heap, pos, v);
        if Ordered(rank, heap) {
          RaisedOrdered(rank, rank', heap, pos[v]);
        }
      } else if Ordered(rank, heap) {
        OffHeap(rank, rank', heap, pos, v);
      }
      rank := rank[v := r];
      if pos[v] > 0 {
        Hup(v);
      }
    }

    /** Bumps the score of a variable. Scores that become too great make all scores be scaled down, after which the heap
        need not be ordered any more. */
    method IncScore(v: nat, level: nat)
      requires Valid() && v in rank
      modifies `rank, `heap, `pos, `vinc, `past
      ensures Valid() && (forall u :: OnHeap(u) <==> old(OnHeap(u)))
      ensures level == 0 ==> rank == old(rank) && vinc == old(vinc) && heap == old(heap)
      ensures level == 0 ==> past == old(past)
      ensures level > 0 ==> BumpedBy(old(Scored()), v, Scored())
      ensures level > 0 ==> exists score: Flt ::
        && IsFloor(score, Value(old(rank)[v].score) + Value(old(vinc)), 1)
        && var bumped := old(rank)[v := old(rank)[v].(score := score)];
        if score > LSCORE then
          && rank == Rescaled(bumped) && vinc == Rescored(old(vinc))
          && past == Past(old(past).rescalings + 1, old(past).collapsed || SomeCollapse(bumped, heap))
        else
          && rank == bumped && vinc == old(vinc) && (old(Sorted()) ==> Sorted()) && past == old(past)
    {
      hide IsFloor, Value, Ordered, Placed, Known, Rescaled, Rescored, SomeCollapse;
      if level == 0 {
        return;
      }
      var score := AddFlt(rank[v].score, vinc);
      BumpRaises(rank[v].score, rank[v].score, vinc, score, score);
      Raise(v, rank[v].(score := score));
      if score > LSCORE {
        Vrescore();
      }
      assert BumpedTo(old(Scored()), v, score, Scored());
    }

    /** Bumps the score of a variable above top level, which takes no variable off the heap. */
    method Bump(v: nat, level: nat, ghost n: nat, ghost waiting: set<nat>)
      requires Holding(n, waiting) && 1 <= v <= n
      modifies `rank, `heap, `pos, `vinc, `past
      ensures Holding(n, waiting) && Bumps(old(Scored()), Scored(), if level > 0 then {v} else {})
    {
      hide Known, Placed, Ordered, SoftFloat.IsFloor, SoftFloat.Value, Rescaled, Rescored, SomeCollapse;
      hide Bumps, BumpedBy;
      ghost var before := Scored();
      IncScore(v, level);
      if level == 0 {
        BumpsNothing(before);
      } else {
        BumpsOne(before, v, Scored());
      }
    }

    /** Scales all scores but those of fixed variables down. */
    method Vrescore()
      requires Valid()
      modifies `rank, `vinc, `past
      ensures Valid() && rank == Rescaled(old(rank)) && vinc == Rescored(old(vinc))
      ensures past == Past(old(past).rescalings + 1, old(past).collapsed || SomeCollapse(old(rank), heap))
      ensures forall u :: OnHeap(u) <==> old(OnHeap(u))
    {
      hide Placed, CmpRnk, Rescored, Ordered, SomeCollapse;
      ghost var before := rank;
      for p := 1 to maxVar + 1
        invariant rank.Keys == before.Keys && Known(rank, heap) && vinc == old(vinc) && past == old(past)
        invariant forall v :: v in rank ==> rank[v] == if v < p then RescaledRank(before[v]) else before[v]
      {
        if rank[p].score != INFFLT {
          var score := MulRescore(rank[p].score);
          rank := rank[p := rank[p].(score := score)];
        }
      }
      vinc := MulRescore(vinc);
      assert rank == Rescaled(before);
      past := Past(past.rescalings + 1, past.collapsed || SomeCollapse(before, heap));
      if Ordered(before, heap) {
        RescaledSorted(before, heap);
      }
    }

    /** Variables are bumped by more and more. */
    method IncVinc()
      modifies `vinc
      ensures Increased(old(vinc), vinc)
      ensures if Multipliable(old(vinc), IFVINC) then IsFloor(vinc, Product(old(vinc), IFVINC), Pow2(128))
              else vinc == EPSFLT
    {
      hide IsFloor, Value, Pow2, Multipliable;
      vinc := MulFlt(vinc, IFVINC);
    }

    /** A variable that got its value at top level will not be decided again. */
    method FixVar(v: nat)
      requires Valid() && v in rank
      modifies `rank, `heap, `pos
      ensures Valid() && (old(Sorted()) ==> Sorted()) && rank == old(rank)[v := old(rank)[v].(score := INFFLT)]
      ensures forall u :: OnHeap(u) <==> old(OnHeap(u))
    {
      hide Ordered, Placed, Known;
      Raise(v, rank[v].(score := INFFLT));
    }

    method SetMoreImportant(v: nat)
      requires Valid() && v in rank && !rank[v].lessimportant
      modifies `rank, `heap, `pos
      ensures Valid() && (old(Sorted()) ==> Sorted()) && rank == old(rank)[v := old(rank)[v].(moreimportant := true)]
      ensures forall u :: OnHeap(u) <==> old(OnHeap(u))
    {
      hide Ordered, Placed, Known;
      if rank[v].moreimportant {
        assert rank[v := rank[v].(moreimportant := true)] == rank;
        return;
      }
      Raise(v, rank[v].(moreimportant := true));
    }

    method SetLessImportant(v: nat)
      requires Valid() && v in rank && !rank[v].moreimportant
      modifies `rank, `heap, `pos
      ensures Valid() && (old(Sorted()) ==> Sorted()) && rank == old(rank)[v := old(rank)[v].(lessimportant := true)]
      ensures forall u :: OnHeap(u) <==> old(OnHeap(u))
    {
      hide Ordered, OrderedDown, Known, Placed, CmpRnk;
      if rank[v].lessimportant {
        assert rank[v := rank[v].(lessimportant := true)] == rank;
        return;
      }
      ghost var rank' := rank[v := rank[v].(lessimportant := true)];
      LoweredGreater(rank, rank', v);
      KnownAs(rank, rank', heap);
      if pos[v] > 0 {
        PlacedOnce(heap, pos, v);
        if Ordered(rank, heap) {
          LoweredOrdered(rank, rank', heap, pos[v]);
        }
      } else if Ordered(rank, heap) {
        OffHeap(rank, rank', heap, pos, v);
      }
      rank := rank[v := rank[v].(lessimportant := true)];
      if pos[v] > 0 {
        Hdown(v);
      }
    }

    /** A variable without a value, the greatest one if the heap is ordered; variables with a value above it are dropped
        from the heap. */
    method Sdecide(level: map<int, nat>) returns (res: nat)
      requires Valid() && Waiting(level) && exists v :: v in rank && Undef(level, v)
      modifies `heap, `pos
      ensures Valid() && Waiting(level)
      ensures res in rank && Undef(level, res)
      ensures old(Sorted()) ==>
        Sorted() && forall u :: u in rank && Undef(level, u) && u != res ==> Greater(rank, res, u)
    {
      hide Ordered, Known, Greater, Placed, Undef;
      ghost var v :| v in rank && Undef(level, v);
      while true
        invariant Valid() && Waiting(level) && (old(Sorted()) ==> Sorted())
        decreases |heap|
      {
        HeapHas(heap, pos, v);
        TopAll(rank, heap, pos);
        res := heap[1];
        if Undef(level, res) {
          return;
        }
        var dropped := Hpop();
      }
    }
  }

  lemma PushPlaced(h: seq<nat>, pos: map<nat, nat>, v: nat)
    requires Placed(h, pos) && (v in pos ==> pos[v] == 0)
    ensures Placed(h + [v], pos[v := |h|])
  {
  }

  lemma PopKnown(rank: map<nat, Rank>, h: seq<nat>)
    requires Known(rank, h) && |h| > 2
    ensures h[|h| - 1] in rank && Known(rank, h[..|h| - 1][1 := h[|h| - 1]])
  {
  }

  lemma OneOrdered(rank: map<nat, Rank>, h: seq<nat>)
    requires |h| == 1
    ensures Ordered(rank, h) && Known(rank, h)
  {
  }

  lemma TopAll(rank: map<nat, Rank>, h: seq<nat>, pos: map<nat, nat>)
    requires Known(rank, h) && Placed(h, pos) && |h| > 1
    ensures h[1] in rank && h[1] in pos && pos[h[1]] == 1
    ensures Ordered(rank, h) ==> forall u :: u in pos && pos[u] > 0 && u != h[1] ==> Greater(rank, h[1], u)
  {
    hide CmpRnk;
    if Ordered(rank, h) {
      forall u | u in pos && pos[u] > 0 && u != h[1]
        ensures Greater(rank, h[1], u)
      {
        TopGreatest(rank, h, pos[u]);
      }
    }
  }

  lemma HeapHas(h: seq<nat>, pos: map<nat, nat>, v: nat)
    requires Placed(h, pos) && v in pos && pos[v] > 0
    ensures |h| > 1
  {
  }

  lemma NewVar(rank: map<nat, Rank>, h: seq<nat>, pos: map<nat, nat>, v: nat, r: Rank)
    requires Known(rank, h) && Placed(h, pos) && pos.Keys == rank.Keys && v !in rank
    ensures Known(rank[v := r], h) && Placed(h, pos[v := 0])
    ensures Ordered(rank, h) ==> Ordered(rank[v := r], h)
  {
    var rank' := rank[v := r];
    if Ordered(rank, h) {
      forall i | 2 <= i < |h|
        ensures Greater(rank', h[i / 2], h[i])
      {
        assert Greater(rank, h[i / 2], h[i]);
      }
    }
  }

  lemma RaisedGreater(rank: map<nat, Rank>, rank': map<nat, Rank>, v: nat)
    requires v in rank && v in rank' && rank' == rank[v := rank'[v]]
    requires rank'[v].score >= rank[v].score && (rank[v].moreimportant ==> rank'[v].moreimportant)
    requires rank'[v].lessimportant == rank[v].lessimportant
    ensures forall u :: u in rank && u != v && Greater(rank, v, u) ==> Greater(rank', v, u)
  {
  }

  lemma LoweredGreater(rank: map<nat, Rank>, rank': map<nat, Rank>, v: nat)
    requires v in rank && rank' == rank[v := rank[v].(lessimportant := true)]
    ensures forall u :: u in rank && u != v && Greater(rank, u, v) ==> Greater(rank', u, v)
  {
  }

  lemma KnownAs(rank: map<nat, Rank>, rank': map<nat, Rank>, h: seq<nat>)
    requires Known(rank, h) && rank.Keys <= rank'.Keys
    ensures Known(rank', h)
  {
  }

  lemma PlacedOnce(h: seq<nat>, pos: map<nat, nat>, v: nat)
    requires Placed(h, pos) && v in pos && pos[v] > 0
    ensures 1 <= pos[v] < |h| && h[pos[v]] == v && forall i :: 1 <= i < |h| && i != pos[v] ==> h[i] != v
  {
  }

  lemma OffHeap(rank: map<nat, Rank>, rank': map<nat, Rank>, h: seq<nat>, pos: map<nat, nat>, v: nat)
    requires Known(rank, h) && Ordered(rank, h) && Placed(h, pos) && v in pos && pos[v] == 0
    requires rank.Keys == rank'.Keys && forall u :: u in rank && u != v ==> rank'[u] == rank[u]
    ensures Ordered(rank', h)
  {
    SameGreater(rank, rank', v);
    hide CmpRnk;
    forall i | 2 <= i < |h|
      ensures Greater(rank', h[i / 2], h[i])
    {
      assert Greater(rank, h[i / 2], h[i]) && h[i] != v && h[i / 2] != v;
    }
  }
}
