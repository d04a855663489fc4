/** What the rounds of the search do: each step is taken exactly under its condition. */
module Rounds {
  import opened Cnf
  import opened Trails
  import opened States
  import opened Counting
  import opened Undoing
  import opened Deciding
  import opened Collecting
  import opened Progress
  import opened Searching

  /** The state of the solver with the counters and limits of the search. */
  datatype Config = Config(
    s: State,
    isimplify: nat,
    fsimplify: nat,
    lsimplify: nat,
    lubycnt: nat,
    lrestart: nat,
    lreduce: nat,
    propagations: nat,
    conflicts: nat,
    decisions: nat)

  /** How many literals are true at top level. */
  ghost function Fixed(c: Config): nat {
    FixedCount(c.s.T.lev, c.s.T.lits)
  }

  /** The restart sequence starts again if a conflict led to new top-level literals. */
  ghost predicate Iterated(backtracked: bool, c: Config, d: Config) {
    if backtracked && c.s.T.dl == 0 && c.isimplify < Fixed(c)
    then d == c.(isimplify := Fixed(c), lubycnt := 1, lrestart := c.conflicts + 100 * LubyOf(1))
    else d == c
  }

  ghost predicate AtTop(s: State, u: State, k: nat) {
    if s.T.dl == 0 then u == s else Undone(s, u, k, 0)
  }

  /** How many propagations there are to be before the next simplification. */
  function Pause(k: Counters): int {
    var delta := 10 * (k.olits + k.llits) + 100000;
    if delta > 2000000 then 2000000 else delta
  }

  /** At top level the unlocked clauses that are satisfied there are deleted. */
  ghost predicate SimplifiedTo(c: Config, d: Config) {
    exists u: State, k: nat ::
      && AtTop(c.s, u, k) && Simplified(u, d.s)
      && d == c.(s := d.s, fsimplify := Fixed(d), lsimplify := d.lsimplify)
      && d.lsimplify == c.propagations + Pause(d.s.k)
  }

  lemma SimplifiedIs(c: Config, m: Config, d: Config, k: nat)
    requires AtTop(c.s, m.s, k) && m == c.(s := m.s)
    requires Simplified(m.s, d.s) && d == m.(s := d.s, fsimplify := Fixed(d), lsimplify := d.lsimplify)
    requires d.lsimplify == m.propagations + Pause(d.s.k)
    ensures SimplifiedTo(c, d)
  {
    hide AtTop, Simplified, Pause, FixedCount;
  }

  /** Simplification waits for new top-level literals and for enough propagations. */
  ghost predicate MaybeSimplified(c: Config, d: Config) {
    if c.fsimplify < Fixed(c) && c.lsimplify <= c.propagations then SimplifiedTo(c, d) else d == c
  }

  /** At the beginning of a search simplification only waits for enough propagations. */
  ghost predicate FirstSimplified(c: Config, d: Config) {
    if c.lsimplify <= c.propagations then SimplifiedTo(c, d) else d == c
  }

  ghost predicate LimitsSet(c: Config, d: Config) {
    d == c.(isimplify := Fixed(c), lubycnt := 1, lrestart := c.conflicts + 100 * LubyOf(1),
      lreduce := if c.lreduce == 0 then 1000 else c.lreduce)
  }

  /** What happens before the first round, once propagation at top level is done. */
  ghost predicate Started(path: seq<Config>, d: Config) {
    |path| == 2 && FirstSimplified(path[0], path[1]) && LimitsSet(path[1], d)
  }

  ghost predicate ReducedTo(c: Config, d: Config, gone: set<Cid>) {
    && c.s.k.llocked >= 0
    && Reduction(c.s.T.lev, c.s.D.cls, c.s.locked, c.s.ocls, c.s.lcls, c.fsimplify < Fixed(c), c.s.k.llocked, 50, gone)
    && (if gone == {} then d.s == c.s else Collected(c.s, d.s, gone))
    && d == c.(s := d.s, fsimplify := Fixed(c), lreduce :=
      if forall cl :: cl in gone && cl in c.s.lcls ==> !IsLarge(c.s.D.cls, cl) then c.lreduce * 110 / 100
      else c.lreduce)
  }

  /** Half of the learned clauses that may be deleted go when there are too many. */
  ghost predicate MaybeReduced(c: Config, d: Config) {
    if c.s.k.nlclauses >= c.lreduce + c.s.k.llocked then exists gone: set<Cid> :: ReducedTo(c, d, gone) else d == c
  }

  ghost predicate RestartedTo(c: Config, d: Config, k: nat) {
    && (d.s == c.s || Undone(c.s, d.s, k, 0))
    && d == c.(s := d.s, lubycnt := c.lubycnt + 1, lrestart := c.conflicts + 100 * LubyOf(c.lubycnt + 1))
  }

  /** After enough conflicts the search goes back to top level, unless the restart is skipped. */
  ghost predicate MaybeRestarted(c: Config, d: Config) {
    if c.conflicts >= c.lrestart && c.s.T.dl > 2 then exists k: nat :: RestartedTo(c, d, k) else d == c
  }

  ghost predicate DecidedTo(c: Config, d: Config, next: Option<Lit>, assumed: bool) {
    && NextAssumption(c.s.T.lev, c.s.als, c.s.alstail, d.s.alstail, if assumed then next else None, d.s.failed)
    && if next.Some? then d.s.T == Decide(c.s.T, next.value) && d.decisions == c.decisions + 1
       else d.s.T == c.s.T.(rsn := d.s.T.rsn) && d.decisions == c.decisions
  }

  /** The first assumption that is not true is decided, or any literal if all are; a false one fails. */
  ghost predicate MaybeDecided(c: Config, d: Config) {
    exists next: Option<Lit>, assumed: bool :: DecidedTo(c, d, next, assumed)
  }

  /** A whole round that ends with a decision or a failed assumption. */
  ghost predicate Rounded(backtracked: bool, c: Config, path: seq<Config>, d: Config) {
    && |path| == 4
    && Iterated(backtracked, c, path[0])
    && MaybeSimplified(path[0], path[1])
    && MaybeReduced(path[1], path[2])
    && MaybeRestarted(path[2], path[3])
    && MaybeDecided(path[3], d)
  }
}
