/** Antecedent chains: the sorted indices of the clauses a learned clause was resolved from, stored as the differences
    of neighbours, each in groups of seven bits, lowest first, with the top bit of a byte set if another one follows. */
module Chains {
  import opened Arithmetic
  import opened Cnf

  const WORD := 0x1_0000_0000

  /** An unsigned 32-bit number. */
  type Word = w: int | 0 <= w < WORD

  type Byte = b: int | 0 <= b < 256

  ghost predicate Increasing(prev: Word, xs: seq<Word>)
    decreases |xs|
  {
    xs == [] || (prev < xs[0] && Increasing(xs[0], xs[1..]))
  }

  /** The bytes of one number. */
  function Bytes(u: Word): (r: seq<Byte>)
    ensures |r| > 0
  {
    if u < 128 then [u] else [u % 128 + 128] + Bytes(u / 128)
  }

  /** The bytes of a chain that continues after prev, with the terminating zero. */
  function Chain(prev: Word, xs: seq<Word>): seq<Byte>
    requires Increasing(prev, xs)
    decreases |xs|
  {
    if xs == [] then [0] else Bytes(xs[0] - prev) + Chain(xs[0], xs[1..])
  }

  // ---------- zero ends a chain and nothing else does ----------

  lemma {:induction false} BytesNonzero(u: Word)
    requires u > 0
    ensures forall i :: 0 <= i < |Bytes(u)| ==> Bytes(u)[i] > 0
  {
    if u >= 128 {
      BytesNonzero(u / 128);
    }
  }

  lemma {:induction false} OneZero(prev: Word, xs: seq<Word>)
    requires Increasing(prev, xs)
    ensures var z := Chain(prev, xs);
      |z| > 0 && z[|z| - 1] == 0 && forall i :: 0 <= i < |z| - 1 ==> z[i] != 0
    decreases |xs|
  {
    if xs != [] {
      BytesNonzero(xs[0] - prev);
      OneZero(xs[0], xs[1..]);
    }
  }

  // ---------- different lists have different chains ----------

  lemma {:induction false} BytesPrefixFree(u: Word, v: Word, s: seq<Byte>, t: seq<Byte>)
    requires Bytes(u) + s == Bytes(v) + t
    ensures u == v && s == t
  {
    var a, b := Bytes(u), Bytes(v);
    assert a[0] == (a + s)[0] == (b + t)[0] == b[0];
    if u >= 128 && v >= 128 {
      assert a[1..] + s == (a + s)[1..] == (b + t)[1..] == b[1..] + t;
      BytesPrefixFree(u / 128, v / 128, s, t);
    } else {
      assert s == (a + s)[|a|..] && t == (b + t)[|b|..];
    }
  }

  lemma {:induction false} ChainInjective(prev: Word, xs: seq<Word>, ys: seq<Word>)
    requires Increasing(prev, xs) && Increasing(prev, ys)
    requires Chain(prev, xs) == Chain(prev, ys)
    ensures xs == ys
    decreases |xs|
  {
    hide Bytes;
    OneZero(prev, xs);
    OneZero(prev, ys);
    if xs != [] {
      BytesNonzero(xs[0] - prev);
    }
    if ys != [] {
      BytesNonzero(ys[0] - prev);
    }
    if xs != [] && ys != [] {
      BytesPrefixFree(xs[0] - prev, ys[0] - prev, Chain(xs[0], xs[1..]), Chain(ys[0], ys[1..]));
      ChainInjective(xs[0], xs[1..], ys[1..]);
      assert xs == [xs[0]] + xs[1..] && ys == [ys[0]] + ys[1..];
    }
  }

  // ---------- writing ----------

  ghost predicate Ascending(xs: seq<Word>) {
    forall i, j :: 0 <= i < j < |xs| ==> xs[i] <= xs[j]
  }

  lemma {:induction false} AscendingIncreasing(prev: Word, xs: seq<Word>)
    requires Ascending(xs) && NoDup(xs) && (xs != [] ==> prev < xs[0])
    ensures Increasing(prev, xs)
    decreases |xs|
  {
    if |xs| > 1 {
      assert xs[0] <= xs[1] && xs[0] != xs[1];
      AscendingIncreasing(xs[0], xs[1..]);
    }
  }

  function InsertIndex(s: seq<Word>, x: Word): seq<Word> {
    if s == [] || x <= s[0] then [x] + s else [s[0]] + InsertIndex(s[1..], x)
  }

  lemma {:induction false} InsertElems(s: seq<Word>, x: Word)
    ensures multiset(InsertIndex(s, x)) == multiset(s) + multiset{x}
  {
    if !(s == [] || x <= s[0]) {
      InsertElems(s[1..], x);
      assert s == [s[0]] + s[1..];
    }
  }

  lemma {:induction false} InsertAscending(s: seq<Word>, x: Word)
    requires Ascending(s)
    ensures Ascending(InsertIndex(s, x))
  {
    if !(s == [] || x <= s[0]) {
      InsertAscending(s[1..], x);
      var r := InsertIndex(s[1..], x);
      InsertElems(s[1..], x);
      forall i | 0 <= i < |r|
        ensures s[0] <= r[i]
      {
        assert r[i] in multiset(r);
        if r[i] != x {
          var j :| 0 <= j < |s[1..]| && s[1..][j] == r[i];
          assert s[j + 1] == r[i];
        }
      }
    }
  }

  /** A sorted permutation of distinct positive indices is increasing. */
  lemma SortedIncreasing(s: seq<Word>, t: seq<Word>)
    requires NoDup(s) && 0 !in s && multiset(s) == multiset(t) && Ascending(t)
    ensures Increasing(0, t) && (s != [] ==> t != [])
  {
    NoDupCounts(s);
    NoDupCounts(t);
    assert |multiset(s)| == |s| && |multiset(t)| == |t|;
    if t != [] {
      assert t[0] in multiset(t);
      assert t[0] in s;
    }
    AscendingIncreasing(0, t);
  }

  class Tracer {
    var buffer: seq<Byte>
    var resolved: seq<Word>         // indices of the antecedents of the clause that is being learned
    var zhains: seq<seq<Byte>>      // the chains of all learned clauses

    constructor ()
      ensures buffer == [] && resolved == [] && zhains == []
    {
      buffer, resolved, zhains := [], [], [];
    }

    method Bpushc(ch: Byte)
      modifies `buffer
      ensures buffer == old(buffer) + [ch]
    {
      buffer := buffer + [ch];
    }

    method Bpushu(u0: Word)
      modifies `buffer
      ensures buffer == old(buffer) + Bytes(u0)
    {
      var u := u0;
      while u >= 128
        invariant buffer + Bytes(u) == old(buffer) + Bytes(u0)
        decreases u
      {
        ghost var b := buffer;
        Bpushc(u % 128 + 128);
        assert buffer + Bytes(u / 128) == b + Bytes(u);
        u := u / 128;
      }
      Bpushc(u);
    }

    method Bpushd(prev: Word, next: Word)
      requires prev < next
      modifies `buffer
      ensures buffer == old(buffer) + Bytes(next - prev)
    {
      Bpushu(next - prev);
    }

    /** Sorts the antecedents by their index. */
    method SortResolved()
      modifies `resolved
      ensures multiset(resolved) == multiset(old(resolved)) && Ascending(resolved)
    {
      var rest := resolved;
      resolved := [];
      while rest != []
        invariant multiset(resolved) + multiset(rest) == multiset(old(resolved)) && Ascending(resolved)
        decreases |rest|
      {
        assert rest == [rest[0]] + rest[1..];
        InsertElems(resolved, rest[0]);
        InsertAscending(resolved, rest[0]);
        resolved := InsertIndex(resolved, rest[0]);
        rest := rest[1..];
      }
    }

    /** Stores the chain of the antecedents collected in resolved. */
    method AddZhain()
      requires buffer == [] && resolved != [] && 0 !in resolved && NoDup(resolved)
      modifies this
      ensures multiset(resolved) == multiset(old(resolved)) && Increasing(0, resolved)
      ensures zhains == old(zhains) + [Chain(0, resolved)]
      ensures buffer == []
    {
      SortResolved();
      SortedIncreasing(old(resolved), resolved);
      PushChain(resolved);
      zhains := zhains + [buffer];
      buffer := [];
    }

    method PushChain(xs: seq<Word>)
      requires Increasing(0, xs) && buffer == []
      modifies `buffer
      ensures buffer == Chain(0, xs)
    {
      hide Bytes;
      var prev: Word := 0;
      var p := 0;
      while p < |xs|
        invariant 0 <= p <= |xs| && Increasing(prev, xs[p..])
        invariant buffer + Chain(prev, xs[p..]) == Chain(0, xs)
      {
        assert xs[p..][1..] == xs[p + 1..];
        ghost var b := buffer;
        Bpushd(prev, xs[p]);
        assert buffer + Chain(xs[p], xs[p + 1..]) == b + Chain(prev, xs[p..]);
        prev := xs[p];
        p := p + 1;
      }
      Bpushc(0);
    }
  }

  // ---------- reading ----------

  /** Bitwise or. */
  function Or(a: nat, b: nat): nat {
    if a == 0 then b
    else if b == 0 then a
    else 2 * Or(a / 2, b / 2) + if a % 2 == 1 || b % 2 == 1 then 1 else 0
  }

  /** A shift to the left in 32 bits. */
  function ShiftLeft(x: Word, i: nat): Word {
    x * Pow2(i) % WORD
  }

  /** Numbers without common bits. */
  lemma {:induction false} OrAdds(a: nat, x: nat, i: nat)
    requires a < Pow2(i)
    ensures Or(a, x * Pow2(i)) == a + x * Pow2(i)
  {
    hide Or, Pow2;
    if i > 0 {
      PowerHalf(a, x, i);
      OrAdds(a / 2, x, i - 1);
      OrHalf(a, x * Pow2(i), x * Pow2(i - 1));
    } else {
      OrNothing(a, x);
    }
  }

  lemma OrNothing(a: nat, x: nat)
    requires a < Pow2(0)
    ensures Or(a, x * Pow2(0)) == a + x * Pow2(0)
  {
  }

  lemma PowerHalf(a: nat, x: nat, i: nat)
    requires i > 0 && a < Pow2(i)
    ensures a / 2 < Pow2(i - 1) && x * Pow2(i) == 2 * (x * Pow2(i - 1))
  {
    Twice(x, Pow2(i - 1));
  }

  lemma Twice(x: nat, p: nat)
    ensures x * (2 * p) == 2 * (x * p)
  {
  }

  lemma OrHalf(a: nat, b: nat, y: nat)
    requires b == 2 * y && Or(a / 2, y) == a / 2 + y
    ensures Or(a, b) == a + b
  {
  }

  /** Of the difference d the lowest i bits were read, and the bits of u remain. */
  ghost predicate Partial(d: nat, i: nat, delta: nat, u: nat) {
    delta < Pow2(i) && d == delta + u * Pow2(i) && u > 0
  }

  lemma Seven(i: nat)
    ensures Pow2(i + 7) == 128 * Pow2(i)
  {
    assert Pow2(i + 7) == 2 * Pow2(i + 6) && Pow2(i + 6) == 2 * Pow2(i + 5) && Pow2(i + 5) == 2 * Pow2(i + 4);
    assert Pow2(i + 4) == 2 * Pow2(i + 3) && Pow2(i + 3) == 2 * Pow2(i + 2) && Pow2(i + 2) == 2 * Pow2(i + 1);
  }

  lemma ReadByte(d: Word, i: nat, delta: Word, u: Word)
    requires Partial(d, i, delta, u)
    ensures Or(delta, ShiftLeft(u % 128, i)) == delta + (u % 128) * Pow2(i) < WORD
    ensures u >= 128 ==> Partial(d, i + 7, delta + (u % 128) * Pow2(i), u / 128)
    ensures u < 128 ==> delta + (u % 128) * Pow2(i) == d
    ensures u > 0
  {
    Seven(i);
    OrAdds(delta, u % 128, i);
    hide Or, Pow2, ShiftLeft;
    var q, r := u / 128, u % 128;
    Groups(u, q, r, Pow2(i));
    Unwrapped(r, i);
    if u >= 128 {
      assert q > 0;
    }
  }

  lemma Unwrapped(x: Word, i: nat)
    ensures x * Pow2(i) < WORD ==> ShiftLeft(x, i) == x * Pow2(i)
  {
    assert x * Pow2(i) >= 0;
  }

  lemma Groups(u: nat, q: nat, r: nat, p: nat)
    requires u == 128 * q + r && r < 128 && p > 0
    ensures u * p == r * p + q * (128 * p) && r * p <= u * p && r * p <= 127 * p
  {
    calc {
      u * p;
      (128 * q + r) * p;
      128 * q * p + r * p;
    }
    assert 128 * q * p == q * (128 * p);
    assert (127 - r) * p >= 0;
    assert 127 * p - r * p == (127 - r) * p;
  }

  /** What is left of a chain: bytes of the current difference, then the rest of the chain. */
  ghost predicate Reading(z: seq<Byte>, prev: Word, rest: seq<Word>, i: nat, delta: Word, u: Word)
    requires Increasing(prev, rest)
  {
    if rest == [] then z == [0] && i == 0 && delta == 0
    else Partial(rest[0] - prev, i, delta, u) && z == Bytes(u) + Chain(rest[0], rest[1..])
  }

  ghost function Gap(prev: Word, xs: seq<Word>): Word
    requires Increasing(prev, xs)
  {
    if xs == [] then 0 else xs[0] - prev
  }

  lemma Begun(prev: Word, xs: seq<Word>)
    requires Increasing(prev, xs)
    ensures Reading(Chain(prev, xs), prev, xs, 0, 0, Gap(prev, xs))
  {
  }

  lemma FirstByte(u: Word)
    ensures u < 128 ==> Bytes(u) == [u]
    ensures u >= 128 ==> Bytes(u) == [u % 128 + 128] + Bytes(u / 128)
  {
  }

  lemma ChainSome(prev: Word, xs: seq<Word>)
    requires Increasing(prev, xs)
    ensures |Chain(prev, xs)| > 0
  {
  }

  lemma ReadNext(z: seq<Byte>, prev: Word, rest: seq<Word>, i: nat, delta: Word, u: Word)
    requires Increasing(prev, rest) && Reading(z, prev, rest, i, delta, u)
    ensures |z| > 0 && (z[0] == 0 <==> rest == [])
    ensures rest != [] ==> var read := Or(delta, ShiftLeft(z[0] % 128, i));
      && |z| > 1 && read < WORD && Increasing(rest[0], rest[1..])
      && (z[0] >= 128 ==> Reading(z[1..], prev, rest, i + 7, read, u / 128))
      && (z[0] < 128 ==> prev + read == rest[0] && Reading(z[1..], rest[0], rest[1..], 0, 0, Gap(rest[0], rest[1..])))
  {
    hide Or, ShiftLeft, Pow2, Partial, Gap, Bytes;
    ChainSome(prev, rest);
    if rest != [] {
      ReadByte(rest[0] - prev, i, delta, u);
      FirstByte(u);
      Begun(rest[0], rest[1..]);
      ChainSome(rest[0], rest[1..]);
      if u >= 128 {
        assert z[1..] == Bytes(u / 128) + Chain(rest[0], rest[1..]);
      } else {
        assert z[1..] == Chain(rest[0], rest[1..]);
      }
    }
  }

  /** The indices a chain stands for. */
  method Decode(znt: seq<Byte>) returns (stack: seq<Word>)
    requires exists xs :: Increasing(0, xs) && znt == Chain(0, xs)
    ensures Increasing(0, stack) && znt == Chain(0, stack)
    ensures forall xs :: Increasing(0, xs) && znt == Chain(0, xs) ==> stack == xs
  {
    ghost var xs :| Increasing(0, xs) && znt == Chain(0, xs);
    stack := ReadChain(znt, xs);
    forall ys | Increasing(0, ys) && znt == Chain(0, ys)
      ensures xs == ys
    {
      ChainInjective(0, xs, ys);
    }
  }

  method ReadChain(znt: seq<Byte>, ghost xs: seq<Word>) returns (stack: seq<Word>)
    requires Increasing(0, xs) && znt == Chain(0, xs)
    ensures stack == xs
  {
    hide Bytes, Or, ShiftLeft, Partial, Chain, Reading, Increasing, Gap;
    ghost var rest: seq<Word>, u: Word := xs, Gap(0, xs);
    var i: nat, delta: Word, prev: Word, p: nat := 0, 0, 0, 0;
    stack := [];
    Begun(0, xs);
    assert znt[0..] == znt;
    ReadNext(znt, 0, rest, i, delta, u);
    while znt[p] != 0
      invariant p < |znt|
      invariant stack + rest == xs && Increasing(prev, rest)
      invariant Reading(znt[p..], prev, rest, i, delta, u)
      invariant znt[p] == 0 <==> rest == []
      decreases |znt| - p
    {
      var byte := znt[p];
      ReadNext(znt[p..], prev, rest, i, delta, u);
      assert znt[p..][1..] == znt[p + 1..];
      delta := Or(delta, ShiftLeft(byte % 128, i));
      if byte >= 128 {
        u := u / 128;
        i := i + 7;
      } else {
        var next := prev + delta;
        assert stack + rest == stack + [rest[0]] + rest[1..];
        stack := stack + [next];
        prev := next;
        delta := 0;
        i := 0;
        rest := rest[1..];
        u := Gap(prev, rest);
      }
      p := p + 1;
      ReadNext(znt[p..], prev, rest, i, delta, u);
    }
  }
}
