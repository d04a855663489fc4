/** Sattyre's reader of DIMACS files, which wants every clause on a line of its own. */
module Dimacs {
  import opened Cnf
  import opened Problems

  // ---------- formatted input, as the C++ streams do it ----------

  const INT_MIN := -0x8000_0000
  const INT_MAX := 0x7fff_ffff
  const SIZES := 0x1_0000_0000_0000_0000

  predicate IsSpace(c: char) {
    c == ' ' || 9 <= c as int <= 13
  }

  predicate IsDigit(c: char) {
    '0' <= c <= '9'
  }

  function Digit(c: char): nat
    requires IsDigit(c)
  {
    c as int - '0' as int
  }

  /** The lines of a text; the last one need not be ended. */
  function Lines(text: string): seq<string> {
    if text == [] then []
    else
      var l := Line(text);
      if |l| < |text| then [l] + Lines(text[|l| + 1..]) else [l]
  }

  function Line(text: string): (l: string)
    ensures |l| <= |text|
  {
    if text == [] || text[0] == '\n' then [] else [text[0]] + Line(text[1..])
  }

  function SkipWs(s: string): (r: string)
    ensures |r| <= |s|
  {
    if s != [] && IsSpace(s[0]) then SkipWs(s[1..]) else s
  }

  function Word(s: string): (w: string)
    ensures |w| <= |s|
  {
    if s == [] || IsSpace(s[0]) then [] else [s[0]] + Word(s[1..])
  }

  /** An extraction fails, or leaves the rest of the line. The end of the line was seen iff the rest is empty. */
  datatype Extract<T> = Failed | Got(value: T, rest: string)

  function ReadToken(s: string): Extract<string> {
    var t := SkipWs(s);
    if t == [] then Failed else Got(Word(t), t[|Word(t)|..])
  }

  /** Reads digits after a number. */
  function Digits(acc: nat, s: string): (r: (nat, string))
    ensures |r.1| <= |s|
    decreases |s|
  {
    if s != [] && IsDigit(s[0]) then Digits(10 * acc + Digit(s[0]), s[1..]) else (acc, s)
  }

  /** A number with an optional sign. */
  function ReadNumber(s: string): (r: Extract<(bool, nat)>)
    ensures r.Got? ==> |r.rest| < |s|
  {
    var t := SkipWs(s);
    var u := if t != [] && (t[0] == '-' || t[0] == '+') then t[1..] else t;
    if u == [] || !IsDigit(u[0]) then Failed
    else
      var d := Digits(Digit(u[0]), u[1..]);
      Got((t[0] == '-', d.0), d.1)
  }

  /** A 64-bit unsigned number; a minus sign wraps it around. */
  function ReadSize(s: string): Extract<nat> {
    var r := ReadNumber(s);
    if r.Failed? || r.value.1 >= SIZES then Failed
    else Got(if r.value.0 then (SIZES - r.value.1) % SIZES else r.value.1, r.rest)
  }

  /** A 32-bit signed number. */
  function ReadLiteral(s: string): (r: Extract<int>)
    ensures r.Got? ==> |r.rest| < |s| && INT_MIN <= r.value <= INT_MAX
  {
    var r := ReadNumber(s);
    if r.Failed? then Failed
    else
      var z: int := if r.value.0 then -(r.value.1 as int) else r.value.1;
      if INT_MIN <= z <= INT_MAX then Got(z, r.rest) else Failed
  }

  // ---------- the parser ----------

  datatype ParseError =
    | CannotOpen
    | DuplicateHeader(line: nat)
    | MalformedHeader(line: nat)
    | TrailingInHeader(line: nat)
    | ClauseBeforeHeader(line: nat)
    | LiteralOutOfRange(line: nat)
    | LiteralUndeclared(line: nat)
    | MissingZero(line: nat)
    | NonIntegerToken(line: nat)
    | MoreClausesThanDeclared
    | MissingHeader
    | ClauseCountMismatch

  datatype Result<T> = Ok(value: T) | Err(error: ParseError)

  /** The clause whose remaining text is s, where n variables are declared. */
  function ClauseFrom(s: string, n: nat, lineNo: nat): Result<Clause>
    decreases |s|
  {
    match ReadLiteral(s)
    case Failed => Err(MissingZero(lineNo))
    case Got(lit, rest) =>
      if lit == 0 then if rest == [] then Ok([]) else Err(NonIntegerToken(lineNo))
      else if lit == INT_MIN then Err(LiteralOutOfRange(lineNo))
      else if Var(lit) > n then Err(LiteralUndeclared(lineNo))
      else Prepend([lit], ClauseFrom(rest, n, lineNo))
  }

  function Prepend(c: Clause, r: Result<Clause>): Result<Clause> {
    if r.Ok? then Ok(c + r.value) else r
  }

  lemma PrependNothing(r: Result<Clause>)
    ensures Prepend([], r) == r
  {
    assert r.Ok? ==> [] + r.value == r.value;
  }

  /** What was read so far. */
  datatype Reader = Reader(headerSeen: bool, expected: nat, problem: SATProblem)

  const START := Reader(false, 0, SATProblem([], 0))

  /** The variables and clauses a problem line declares. */
  function Header(s: string, lineNo: nat): Result<(nat, nat)> {
    var format := ReadToken(s);
    if format.Failed? then Err(MalformedHeader(lineNo))
    else
      var vars := ReadSize(format.rest);
      if vars.Failed? then Err(MalformedHeader(lineNo))
      else
        var clauses := ReadSize(vars.rest);
        if clauses.Failed? || format.value != "cnf" then Err(MalformedHeader(lineNo))
        else if ReadToken(clauses.rest).Got? then Err(TrailingInHeader(lineNo))
        else Ok((vars.value, clauses.value))
  }

  function ReadLine(st: Reader, line: string, lineNo: nat): Result<Reader> {
    var first := ReadToken(line);
    if first.Failed? || first.value == "c" then Ok(st)
    else if first.value == "p" then
      if st.headerSeen then Err(DuplicateHeader(lineNo))
      else
        var h := Header(first.rest, lineNo);
        if h.Err? then Err(h.error)
        else Ok(Reader(true, h.value.1, st.problem.(variableCount := h.value.0)))
    else if !st.headerSeen then Err(ClauseBeforeHeader(lineNo))
    else
      var c := ClauseFrom(line, st.problem.variableCount, lineNo);
      if c.Err? then Err(c.error)
      else if |st.problem.clauses| + 1 > st.expected then Err(MoreClausesThanDeclared)
      else Ok(st.(problem := st.problem.(clauses := st.problem.clauses + [c.value])))
  }

  function ReadLines(st: Reader, lines: seq<string>, lineNo: nat): Result<Reader>
    decreases |lines|
  {
    if lines == [] then Ok(st)
    else
      var r := ReadLine(st, lines[0], lineNo + 1);
      if r.Err? then r else ReadLines(r.value, lines[1..], lineNo + 1)
  }

  function Finish(st: Reader): Result<SATProblem> {
    if !st.headerSeen then Err(MissingHeader)
    else if |st.problem.clauses| != st.expected then Err(ClauseCountMismatch)
    else Ok(st.problem)
  }

  /** What a text says. */
  function Parsed(text: string): Result<SATProblem> {
    var r := ReadLines(START, Lines(text), 0);
    if r.Err? then Err(r.error) else Finish(r.value)
  }

  method ParseClause(line: string, n: nat, lineNo: nat) returns (r: Result<Clause>)
    ensures r == ClauseFrom(line, n, lineNo)
  {
    hide ReadLiteral;
    var clause: Clause := [];
    var s := line;
    var terminated := false;
    var e := ReadLiteral(s);
    PrependNothing(ClauseFrom(line, n, lineNo));
    while e.Got? && !terminated
      invariant !terminated ==>
        e == ReadLiteral(s) && ClauseFrom(line, n, lineNo) == Prepend(clause, ClauseFrom(s, n, lineNo))
      invariant terminated ==>
        ClauseFrom(line, n, lineNo) == if s == [] then Ok(clause) else Err(NonIntegerToken(lineNo))
      decreases !terminated, |s|
    {
      var lit := e.value;
      if lit == 0 {
        terminated := true;
        s := e.rest;
        assert clause + [] == clause;
      } else {
        if lit == INT_MIN {
          return Err(LiteralOutOfRange(lineNo));
        }
        if Var(lit) > n {
          return Err(LiteralUndeclared(lineNo));
        }
        ghost var more := ClauseFrom(e.rest, n, lineNo);
        assert more.Ok? ==> clause + ([lit] + more.value) == clause + [lit] + more.value;
        clause := clause + [lit];
        s := e.rest;
        e := ReadLiteral(s);
      }
    }
    if !terminated {
      return Err(MissingZero(lineNo));
    }
    if s != [] {
      return Err(NonIntegerToken(lineNo));
    }
    r := Ok(clause);
  }

  /** Reads a problem; file is the content of the file, if it can be opened. */
  method ParseDimacsFile(canOpen: bool, text: string) returns (r: Result<SATProblem>)
    ensures r == if canOpen then Parsed(text) else Err(CannotOpen)
  {
    hide ReadToken, Header, ClauseFrom, Lines;
    if !canOpen {
      return Err(CannotOpen);
    }
    var problem := SATProblem([], 0);
    var headerSeen := false;
    var expected, actual := 0, 0;
    var lines := Lines(text);
    var lineNo := 0;
    assert lines[0..] == lines;
    while lineNo < |lines|
      invariant 0 <= lineNo <= |lines| && actual == |problem.clauses|
      invariant ReadLines(START, lines, 0) == ReadLines(Reader(headerSeen, expected, problem), lines[lineNo..], lineNo)
    {
      var line := lines[lineNo];
      assert lines[lineNo..][1..] == lines[lineNo + 1..];
      lineNo := lineNo + 1;
      var first := ReadToken(line);
      if first.Failed? || first.value == "c" {
        continue;
      }
      if first.value == "p" {
        if headerSeen {
          return Err(DuplicateHeader(lineNo));
        }
        var h := Header(first.rest, lineNo);
        if h.Err? {
          return Err(h.error);
        }
        problem := problem.(variableCount := h.value.0);
        expected := h.value.1;
        headerSeen := true;
        continue;
      }
      if !headerSeen {
        return Err(ClauseBeforeHeader(lineNo));
      }
      var clause := ParseClause(line, problem.variableCount, lineNo);
      if clause.Err? {
        return Err(clause.error);
      }
      problem := problem.(clauses := problem.clauses + [clause.value]);
      actual := actual + 1;
      if actual > expected {
        return Err(MoreClausesThanDeclared);
      }
    }
    if !headerSeen {
      return Err(MissingHeader);
    }
    if actual != expected {
      return Err(ClauseCountMismatch);
    }
    r := Ok(problem);
  }

  // ---------- what an accepted text guarantees ----------

  ghost predicate Literals(n: nat, C: Clause) {
    forall l :: l in C ==> 1 <= Var(l) <= n && INT_MIN < l <= INT_MAX
  }

  lemma {:induction false} ClauseInRange(s: string, n: nat, lineNo: nat)
    ensures var r := ClauseFrom(s, n, lineNo); r.Ok? ==> Literals(n, r.value)
    decreases |s|
  {
    var e := ReadLiteral(s);
    if e.Got? && e.value != 0 {
      ClauseInRange(e.rest, n, lineNo);
    }
  }

  /** Before the problem line there are no clauses; after it, there are not too many. */
  ghost predicate ReaderOk(st: Reader) {
    && (forall C :: C in st.problem.clauses ==> Literals(st.problem.variableCount, C))
    && (!st.headerSeen ==> st.problem.clauses == [])
    && (st.headerSeen ==> |st.problem.clauses| <= st.expected)
  }

  lemma {:induction false} ReadLinesOk(st: Reader, lines: seq<string>, lineNo: nat)
    requires ReaderOk(st)
    ensures var r := ReadLines(st, lines, lineNo); r.Ok? ==> ReaderOk(r.value)
    decreases |lines|
  {
    hide ClauseFrom, Header, ReadToken;
    if lines != [] {
      ClauseInRange(lines[0], st.problem.variableCount, lineNo + 1);
      var r := ReadLine(st, lines[0], lineNo + 1);
      if r.Ok? {
        ReadLinesOk(r.value, lines[1..], lineNo + 1);
      }
    }
  }

  /** The literals of an accepted problem are nonzero and declared. */
  lemma ParsedInRange(text: string)
    ensures var r := Parsed(text); r.Ok? ==> InRange(r.value)
  {
    hide ReadLines;
    ReadLinesOk(START, Lines(text), 0);
  }

  // ---------- writing numbers and clauses ----------

  function DigitChar(d: nat): (c: char)
    requires d < 10
    ensures IsDigit(c) && Digit(c) == d
  {
    ('0' as int + d) as char
  }

  function Decimal(n: nat): (s: string)
    ensures s != [] && forall c :: c in s ==> IsDigit(c)
  {
    if n < 10 then [DigitChar(n)] else Decimal(n / 10) + [DigitChar(n % 10)]
  }

  function Show(z: int): string {
    if z < 0 then "-" + Decimal(-z) else Decimal(z)
  }

  function ShowLits(C: Clause): string {
    if C == [] then [] else Show(C[0]) + " " + ShowLits(C[1..])
  }

  function ShowClause(C: Clause): string {
    ShowLits(C) + "0"
  }

  function ShowClauses(cs: seq<Clause>): string {
    if cs == [] then [] else ShowClause(cs[0]) + "\n" + ShowClauses(cs[1..])
  }

  /** A problem as a DIMACS text. */
  function Text(p: SATProblem): string {
    "p cnf " + Show(p.variableCount) + " " + Show(|p.clauses|) + "\n" + ShowClauses(p.clauses)
  }

  // ---------- reading what was written ----------

  /** The text ends, or goes on with a space. */
  predicate Breaks(s: string) {
    s == [] || IsSpace(s[0])
  }

  lemma {:induction false} DecimalDigits(n: nat, rest: string)
    ensures var d := Decimal(n) + rest; IsDigit(d[0]) && Digits(Digit(d[0]), d[1..]) == Digits(n, rest)
  {
    hide IsDigit, Digit;
    if n >= 10 {
      var c := DigitChar(n % 10);
      DecimalDigits(n / 10, [c] + rest);
      assert Decimal(n) + rest == Decimal(n / 10) + ([c] + rest);
      DigitsStep(n / 10, c, rest);
    } else {
      assert ([DigitChar(n)] + rest)[1..] == rest;
    }
  }

  lemma DigitsStep(acc: nat, c: char, rest: string)
    requires IsDigit(c)
    ensures Digits(acc, [c] + rest) == Digits(10 * acc + Digit(c), rest)
  {
    assert ([c] + rest)[1..] == rest;
  }

  lemma ShownSigned(z: int, rest: string)
    ensures var s := Show(z) + rest; var u := Decimal(Var(z)) + rest;
      s != [] && s == (if z < 0 then ['-'] + u else u) && !IsSpace(s[0]) && IsDigit(u[0]) && (z < 0 ==> s[1..] == u)
      && (z >= 0 ==> s[0] != '-' && s[0] != '+')
  {
    hide IsSpace, Decimal;
    var u := Decimal(Var(z)) + rest;
    assert u[0] == Decimal(Var(z))[0] && u[0] in Decimal(Var(z));
    DigitNoSpace(u[0]);
    DigitNoSpace('-');
    if z < 0 {
      assert Show(z) + rest == ['-'] + u;
    }
  }

  lemma DigitNoSpace(c: char)
    requires IsDigit(c) || c == '-'
    ensures !IsSpace(c) && (IsDigit(c) ==> c != '-' && c != '+')
  {
  }

  lemma ReadShown(z: int, rest: string)
    requires Breaks(rest)
    ensures ReadNumber(Show(z) + rest) == Got((z < 0, Var(z)), rest)
    ensures ReadNumber(" " + Show(z) + rest) == Got((z < 0, Var(z)), rest)
  {
    hide Show, Decimal, Digits, IsSpace, IsDigit, Digit;
    var s, u := Show(z) + rest, Decimal(Var(z)) + rest;
    ShownSigned(z, rest);
    DecimalDigits(Var(z), rest);
    DigitsBreak(Var(z), rest);
    SkipOne(s);
    assert " " + Show(z) + rest == " " + s;
    ReadBlank(s);
  }

  lemma ReadBlank(s: string)
    requires SkipWs(" " + s) == SkipWs(s)
    ensures ReadNumber(" " + s) == ReadNumber(s)
  {
    hide Digits, IsSpace, IsDigit, Digit, SkipWs;
  }

  lemma SkipOne(s: string)
    requires s != [] && !IsSpace(s[0])
    ensures SkipWs(s) == s && SkipWs(" " + s) == s
  {
    assert (" " + s)[1..] == s;
  }

  lemma DigitsBreak(n: nat, rest: string)
    requires Breaks(rest)
    ensures Digits(n, rest) == (n, rest)
  {
  }

  lemma {:induction false} WordShown(w: string, rest: string)
    requires forall c :: c in w ==> !IsSpace(c)
    requires Breaks(rest)
    ensures Word(w + rest) == w
  {
    if w != [] {
      WordShown(w[1..], rest);
      assert (w + rest)[1..] == w[1..] + rest;
    } else {
      assert w + rest == rest;
    }
  }

  lemma LiteralShown(z: int, rest: string)
    requires Breaks(rest) && INT_MIN <= z <= INT_MAX
    ensures ReadLiteral(Show(z) + rest) == Got(z, rest)
    ensures ReadLiteral(" " + Show(z) + rest) == Got(z, rest)
  {
    hide ReadNumber, Show;
    ReadShown(z, rest);
  }

  function ClauseThen(C: Clause, tail: string, lineNo: nat): Result<Clause> {
    if tail == [] then Ok(C) else Err(NonIntegerToken(lineNo))
  }

  /** A written clause is read back if the line ends with its zero; even a blank after it is an error. */
  lemma {:induction false} ClauseShown(C: Clause, tail: string, n: nat, lineNo: nat)
    requires Literals(n, C) && Breaks(tail)
    ensures ClauseFrom(ShowClause(C) + tail, n, lineNo) == ClauseThen(C, tail, lineNo)
    ensures ClauseFrom(" " + ShowClause(C) + tail, n, lineNo) == ClauseThen(C, tail, lineNo)
  {
    hide ReadLiteral, Show;
    if C == [] {
      assert Show(0) == "0" by { ShowZero(); }
      LiteralShown(0, tail);
      assert Show(0) == ShowClause(C);
    } else {
      var rest := " " + ShowClause(C[1..]) + tail;
      assert C[0] in C;
      LiteralShown(C[0], rest);
      forall l | l in C[1..]
        ensures l in C
      {
      }
      ClauseShown(C[1..], tail, n, lineNo);
      ShowFirst(C, tail);
      hide ShowClause;
      assert [C[0]] + C[1..] == C;
    }
  }

  lemma ShowFirst(C: Clause, tail: string)
    requires C != []
    ensures ShowClause(C) + tail == Show(C[0]) + (" " + ShowClause(C[1..]) + tail)
    ensures " " + ShowClause(C) + tail == " " + Show(C[0]) + (" " + ShowClause(C[1..]) + tail)
  {
    hide Show;
  }

  lemma ShowZero()
    ensures Show(0) == "0"
  {
  }

  /** A printed clause does not look like a comment or a problem line. */
  lemma FirstShown(C: Clause)
    ensures var t := ReadToken(ShowClause(C)); t.Got? && t.value != "c" && t.value != "p"
  {
    var s := ShowClause(C);
    assert s[0] == '-' || IsDigit(s[0]) by {
      if C != [] {
        assert s[0] == Show(C[0])[0];
      }
    }
    assert Word(s)[0] == s[0];
  }

  lemma {:induction false} LineShown(l: string, rest: string)
    requires '\n' !in l
    ensures Line(l + "\n" + rest) == l && Lines(l + "\n" + rest) == [l] + Lines(rest)
  {
    var s := l + "\n" + rest;
    LineIs(l, rest);
    assert s[|l| + 1..] == rest;
  }

  lemma {:induction false} LineIs(l: string, rest: string)
    requires '\n' !in l
    ensures Line(l + "\n" + rest) == l
  {
    if l != [] {
      LineIs(l[1..], rest);
      assert (l + "\n" + rest)[1..] == l[1..] + "\n" + rest;
    }
  }

  lemma {:induction false} NoNewline(C: Clause)
    ensures '\n' !in ShowLits(C) && '\n' !in ShowClause(C)
  {
    if C != [] {
      NoNewline(C[1..]);
      assert '\n' !in Show(C[0]);
    }
  }

  lemma {:induction false} ClausesShown(st: Reader, cs: seq<Clause>, lineNo: nat)
    requires st.headerSeen && |st.problem.clauses| + |cs| <= st.expected
    requires forall C :: C in cs ==> Literals(st.problem.variableCount, C)
    ensures ReadLines(st, Lines(ShowClauses(cs)), lineNo) ==
      Ok(st.(problem := st.problem.(clauses := st.problem.clauses + cs)))
    decreases |cs|
  {
    hide ShowClause, ReadToken, ClauseFrom, Line, Literals;
    var p := st.problem;
    if cs == [] {
      assert p.clauses + cs == p.clauses;
    } else {
      var C := cs[0];
      var l := ShowClause(C);
      NoNewline(C);
      LineShown(l, ShowClauses(cs[1..]));
      FirstShown(C);
      ClauseShown(C, [], p.variableCount, lineNo + 1);
      assert l + [] == l;
      var next := st.(problem := p.(clauses := p.clauses + [C]));
      assert ReadLine(st, l, lineNo + 1) == Ok(next);
      ClausesShown(next, cs[1..], lineNo + 1);
      assert p.clauses + [C] + cs[1..] == p.clauses + cs;
    }
  }

  /** A negative number in the problem line is not an error: it wraps around. */
  lemma HeaderShown(n: int, k: int, lineNo: nat)
    requires -SIZES < n < SIZES && -SIZES < k < SIZES
    ensures Header(" cnf " + Show(n) + " " + Show(k), lineNo) == Ok((n % SIZES, k % SIZES))
  {
    hide ReadNumber, Show, ReadToken;
    var rest := " " + Show(n) + " " + Show(k);
    assert " cnf " + Show(n) + " " + Show(k) == " cnf" + rest;
    FormatShown(rest);
    assert rest == " " + Show(n) + (" " + Show(k));
    ReadShown(n, " " + Show(k));
    assert " " + Show(k) + [] == " " + Show(k);
    ReadShown(k, []);
    NoToken();
  }

  lemma NoToken()
    ensures ReadToken([]).Failed?
  {
  }

  lemma FormatShown(rest: string)
    requires Breaks(rest)
    ensures ReadToken(" cnf" + rest) == Got("cnf", rest)
  {
    var t := "cnf" + rest;
    assert " cnf" + rest == " " + t;
    SkipOne(t);
    WordShown("cnf", rest);
    assert t[3..] == rest;
  }

  lemma HeaderLine(n: nat, k: nat, lineNo: nat)
    requires n < SIZES && k < SIZES
    ensures ReadLine(START, "p cnf " + Show(n) + " " + Show(k), lineNo) == Ok(Reader(true, k, SATProblem([], n)))
    ensures '\n' !in "p cnf " + Show(n) + " " + Show(k)
  {
    hide Header, Show;
    var rest := " cnf " + Show(n) + " " + Show(k);
    var s := "p cnf " + Show(n) + " " + Show(k);
    assert s == "p" + rest;
    WordShown("p", rest);
    assert s[1..] == rest;
    HeaderShown(n, k, lineNo);
    ShownNoNewline(n);
    ShownNoNewline(k);
  }

  lemma ShownNoNewline(z: int)
    ensures '\n' !in Show(z)
  {
  }

  /** The parser reads back what was written. */
  lemma RoundTrip(p: SATProblem)
    requires p.variableCount <= INT_MAX && |p.clauses| < SIZES && InRange(p)
    ensures Parsed(Text(p)) == Ok(p)
  {
    hide ReadLine, Lines, Line, Show, ShowClauses;
    var h := "p cnf " + Show(p.variableCount) + " " + Show(|p.clauses|);
    var st := Reader(true, |p.clauses|, SATProblem([], p.variableCount));
    HeaderLine(p.variableCount, |p.clauses|, 1);
    LineShown(h, ShowClauses(p.clauses));
    assert Text(p) == h + "\n" + ShowClauses(p.clauses);
    ClausesShown(st, p.clauses, 1);
    assert [] + p.clauses == p.clauses;
  }

  // ---------- comments and blank lines ----------

  predicate AllSpace(s: string) {
    forall c :: c in s ==> IsSpace(c)
  }

  /** A line without a word, or whose first word is a single c. */
  ghost predicate Skipped(l: string) {
    AllSpace(l) || exists ws: string, rest: string :: AllSpace(ws) && Breaks(rest) && l == ws + "c" + rest
  }

  /** The lines that are neither comments nor blank. */
  ghost function Significant(ls: seq<string>): seq<string> {
    if ls == [] then [] else (if Skipped(ls[0]) then [] else [ls[0]]) + Significant(ls[1..])
  }

  lemma {:induction false} SkipSpace(ws: string, s: string)
    requires AllSpace(ws)
    ensures SkipWs(ws + s) == SkipWs(s)
  {
    if ws != [] {
      assert ws[0] in ws && (ws + s)[1..] == ws[1..] + s;
      SkipSpace(ws[1..], s);
    } else {
      assert ws + s == s;
    }
  }

  lemma {:induction false} SpaceBefore(s: string) returns (ws: string)
    ensures AllSpace(ws) && s == ws + SkipWs(s) && (SkipWs(s) != [] ==> !IsSpace(SkipWs(s)[0]))
  {
    if s != [] && IsSpace(s[0]) {
      ws := SpaceBefore(s[1..]);
      ws := [s[0]] + ws;
      assert s == [s[0]] + s[1..];
    } else {
      ws := [];
      assert s == ws + s;
    }
  }

  /** A line is skipped iff it has no first word or its first word is a c. */
  lemma SkippedIs(l: string)
    ensures Skipped(l) <==> ReadToken(l).Failed? || ReadToken(l).value == "c"
  {
    var ws := SpaceBefore(l);
    var t := SkipWs(l);
    if t != [] && Word(t) == "c" {
      WordOnly(t, 'c');
      assert l == ws + "c" + t[1..];
    }
    if Skipped(l) {
      SkippedRead(l);
    }
    if t == [] {
      assert l == ws;
    }
  }

  lemma WordOnly(t: string, c: char)
    requires t != [] && Word(t) == [c]
    ensures t == [c] + t[1..] && Breaks(t[1..])
  {
    assert Word(t)[0] == t[0] && Word(t)[1..] == Word(t[1..]);
  }

  lemma SkippedRead(l: string)
    requires Skipped(l)
    ensures ReadToken(l).Failed? || ReadToken(l).value == "c"
  {
    if AllSpace(l) {
      SkipSpace(l, []);
      assert l + [] == l;
    } else {
      var ws, rest :| AllSpace(ws) && Breaks(rest) && l == ws + "c" + rest;
      assert l == ws + ("c" + rest);
      SkipSpace(ws, "c" + rest);
      WordShown("c", rest);
    }
  }

  /** The same, with no regard to the numbers of lines. */
  function Unnumbered<T>(r: Result<T>): Result<T> {
    match r
    case Ok(_) => r
    case Err(DuplicateHeader(_)) => Err(DuplicateHeader(0))
    case Err(MalformedHeader(_)) => Err(MalformedHeader(0))
    case Err(TrailingInHeader(_)) => Err(TrailingInHeader(0))
    case Err(ClauseBeforeHeader(_)) => Err(ClauseBeforeHeader(0))
    case Err(LiteralOutOfRange(_)) => Err(LiteralOutOfRange(0))
    case Err(LiteralUndeclared(_)) => Err(LiteralUndeclared(0))
    case Err(MissingZero(_)) => Err(MissingZero(0))
    case Err(NonIntegerToken(_)) => Err(NonIntegerToken(0))
    case Err(_) => r
  }

  lemma {:induction false} ClauseAlike(s: string, n: nat, i: nat, j: nat)
    ensures Unnumbered(ClauseFrom(s, n, i)) == Unnumbered(ClauseFrom(s, n, j))
    ensures ClauseFrom(s, n, i).Ok? ==> ClauseFrom(s, n, i) == ClauseFrom(s, n, j)
    decreases |s|
  {
    hide ReadLiteral;
    var e := ReadLiteral(s);
    if e.Got? && e.value != 0 {
      ClauseAlike(e.rest, n, i, j);
    }
  }

  lemma LineAlike(st: Reader, l: string, i: nat, j: nat)
    ensures Unnumbered(ReadLine(st, l, i)) == Unnumbered(ReadLine(st, l, j))
    ensures ReadLine(st, l, i).Ok? ==> ReadLine(st, l, i) == ReadLine(st, l, j)
  {
    hide ReadToken, ReadSize, ClauseFrom;
    ClauseAlike(l, st.problem.variableCount, i, j);
  }

  /** Only the significant lines matter. */
  lemma {:induction false} SignificantRead(st: Reader, ls: seq<string>, i: nat, j: nat)
    ensures Unnumbered(ReadLines(st, ls, i)) == Unnumbered(ReadLines(st, Significant(ls), j))
    decreases |ls|
  {
    hide ReadToken, Header, ClauseFrom, Skipped, Unnumbered;
    if ls != [] {
      var l, rest := ls[0], Significant(ls[1..]);
      SkippedIs(l);
      if Skipped(l) {
        assert Significant(ls) == rest;
        SignificantRead(st, ls[1..], i + 1, j);
      } else {
        assert Significant(ls) == [l] + rest && ([l] + rest)[1..] == rest;
        LineAlike(st, l, i + 1, j + 1);
        var r := ReadLine(st, l, i + 1);
        if r.Ok? {
          SignificantRead(r.value, ls[1..], i + 1, j + 1);
        } else {
          ErrAlike(r, ReadLine(st, l, j + 1));
        }
      }
    }
  }

  lemma ErrAlike(r: Result<Reader>, q: Result<Reader>)
    requires Unnumbered(r) == Unnumbered(q) && r.Err?
    ensures q.Err?
  {
  }

  lemma {:induction false} SignificantTwice(ls: seq<string>)
    ensures Significant(Significant(ls)) == Significant(ls)
  {
    hide Skipped;
    if ls != [] {
      SignificantTwice(ls[1..]);
      if !Skipped(ls[0]) {
        assert Significant(ls)[1..] == Significant(ls[1..]);
      } else {
        assert Significant(ls) == Significant(ls[1..]);
      }
    }
  }

  lemma FinishAlike(r: Result<Reader>, q: Result<Reader>)
    requires Unnumbered(r) == Unnumbered(q)
    ensures Unnumbered(if r.Err? then Err(r.error) else Finish(r.value)) ==
            Unnumbered(if q.Err? then Err(q.error) else Finish(q.value))
  {
  }

  /** Texts with the same significant lines say the same. */
  lemma CommentsSkipped(text: string, other: string)
    requires Significant(Lines(text)) == Significant(Lines(other))
    ensures Unnumbered(Parsed(text)) == Unnumbered(Parsed(other))
  {
    hide ReadLines, Significant, Unnumbered, Lines;
    SignificantRead(START, Lines(text), 0, 0);
    SignificantRead(START, Lines(other), 0, 0);
    FinishAlike(ReadLines(START, Lines(text), 0), ReadLines(START, Lines(other), 0));
  }

  lemma {:induction false} LinesJoin(a: string, b: string)
    requires a == [] || a[|a| - 1] == '\n'
    ensures Lines(a + b) == Lines(a) + Lines(b)
    decreases |a|
  {
    hide Lines, Line;
    if a == [] {
      NoLines();
      assert a + b == b;
    } else {
      FirstLine(a);
      var l := Line(a);
      LinesStep(a, l, a[|l| + 1..], b);
      LinesJoin(a[|l| + 1..], b);
      assert [l] + Lines(a[|l| + 1..]) + Lines(b) == [l] + (Lines(a[|l| + 1..]) + Lines(b));
    }
  }

  lemma NoLines()
    ensures Lines([]) == []
  {
  }

  lemma LinesStep(a: string, l: string, rest: string, b: string)
    requires a == l + "\n" + rest && '\n' !in l && (a == [] || a[|a| - 1] == '\n')
    ensures Lines(a) == [l] + Lines(rest) && Lines(a + b) == [l] + Lines(rest + b)
    ensures rest == [] || rest[|rest| - 1] == '\n'
  {
    hide Lines, Line;
    assert rest != [] ==> rest[|rest| - 1] == a[|a| - 1];
    assert a + b == l + "\n" + (rest + b);
    LineShown(l, rest);
    LineShown(l, rest + b);
  }

  lemma {:induction false} FirstLine(a: string)
    requires a != [] && a[|a| - 1] == '\n'
    ensures var l := Line(a); |l| < |a| && '\n' !in l && a == l + "\n" + a[|l| + 1..]
  {
    if a[0] != '\n' {
      var r, m := a[1..], Line(a[1..]);
      FirstLine(r);
      assert Line(a) == [a[0]] + m;
      hide Line;
      assert a == [a[0]] + r && a[|m| + 2..] == r[|m| + 1..];
      var rest := r[|m| + 1..];
      assert [a[0]] + (m + "\n" + rest) == [a[0]] + m + "\n" + rest;
    } else {
      assert a == [] + "\n" + a[1..];
    }
  }

  lemma {:induction false} SignificantJoin(a: seq<string>, b: seq<string>)
    ensures Significant(a + b) == Significant(a) + Significant(b)
  {
    hide Skipped;
    if a == [] {
      assert a + b == b;
    } else {
      SignificantJoin(a[1..], b);
      assert (a + b)[1..] == a[1..] + b && (a + b)[0] == a[0];
    }
  }

  /** A comment or a blank line may be inserted between any two lines. */
  lemma CommentInserted(a: string, l: string, b: string)
    requires (a == [] || a[|a| - 1] == '\n') && '\n' !in l && Skipped(l)
    ensures Unnumbered(Parsed(a + l + "\n" + b)) == Unnumbered(Parsed(a + b))
  {
    hide Parsed, Skipped, Lines, Unnumbered;
    assert a + l + "\n" + b == a + (l + "\n" + b);
    LinesJoin(a, l + "\n" + b);
    LinesJoin(a, b);
    LineShown(l, b);
    SignificantJoin(Lines(a), [l] + Lines(b));
    SignificantJoin(Lines(a), Lines(b));
    assert Significant([l] + Lines(b)) == Significant(Lines(b)) by {
      assert ([l] + Lines(b))[1..] == Lines(b);
    }
    CommentsSkipped(a + l + "\n" + b, a + b);
  }

  /** A written problem is read back with any comments and blank lines between its lines. */
  lemma CommentedRoundTrip(p: SATProblem, text: string)
    requires p.variableCount <= INT_MAX && |p.clauses| < SIZES && InRange(p)
    requires Significant(Lines(text)) == Lines(Text(p))
    ensures Parsed(text) == Ok(p)
  {
    hide Parsed, Lines, Text, Significant;
    RoundTrip(p);
    SignificantTwice(Lines(text));
    CommentsSkipped(text, Text(p));
  }

  // ---------- numbers, clauses and problem lines as they may be written ----------

  predicate AllDigits(s: string) {
    forall c :: c in s ==> IsDigit(c)
  }

  /** What digits mean. */
  function DecimalValue(s: string): nat
    requires AllDigits(s)
  {
    if s == [] then 0 else 10 * DecimalValue(s[..|s| - 1]) + Digit(s[|s| - 1])
  }

  /** Digits with an optional sign. */
  ghost predicate Numeral(d: string, neg: bool, v: nat) {
    exists sign: string, ds: string ::
      && d == sign + ds && (if neg then sign == "-" else sign == "" || sign == "+")
      && ds != [] && AllDigits(ds) && DecimalValue(ds) == v
  }

  predicate NoDigit(rest: string) {
    rest == [] || !IsDigit(rest[0])
  }

  /** s starts with a number, maybe after spaces, and goes on with rest. */
  ghost predicate Starts(s: string, neg: bool, v: nat, rest: string) {
    exists ws: string, d: string :: AllSpace(ws) && Numeral(d, neg, v) && NoDigit(rest) && s == ws + d + rest
  }

  lemma {:induction false} DigitsMean(pre: string, ds: string, rest: string)
    requires AllDigits(pre) && AllDigits(ds) && NoDigit(rest)
    ensures AllDigits(pre + ds) && Digits(DecimalValue(pre), ds + rest) == (DecimalValue(pre + ds), rest)
    decreases |ds|
  {
    if ds == [] {
      assert ds + rest == rest && pre + ds == pre;
    } else {
      var next := pre + [ds[0]];
      assert ds[0] in ds && AllDigits(next) && AllDigits(ds[1..]);
      assert (ds + rest)[1..] == ds[1..] + rest && next + ds[1..] == pre + ds;
      assert next[..|next| - 1] == pre;
      DigitsMean(next, ds[1..], rest);
    }
  }

  lemma {:induction false} DigitsBefore(acc: nat, s: string) returns (ds: string)
    ensures AllDigits(ds) && s == ds + Digits(acc, s).1 && NoDigit(Digits(acc, s).1)
    decreases |s|
  {
    if s != [] && IsDigit(s[0]) {
      var tail := DigitsBefore(10 * acc + Digit(s[0]), s[1..]);
      ds := DigitBefore(s, tail, Digits(acc, s).1);
    } else {
      ds := [];
      assert s == ds + s;
    }
  }

  lemma DigitBefore(s: string, tail: string, rest: string) returns (ds: string)
    requires s != [] && IsDigit(s[0]) && AllDigits(tail) && s[1..] == tail + rest
    ensures AllDigits(ds) && s == ds + rest
  {
    hide IsDigit;
    ds := [s[0]] + tail;
    assert s == [s[0]] + s[1..];
  }

  lemma UnsignedRead(ds: string, rest: string)
    requires ds != [] && AllDigits(ds) && NoDigit(rest)
    ensures IsDigit((ds + rest)[0])
    ensures Digits(Digit((ds + rest)[0]), (ds + rest)[1..]) == (DecimalValue(ds), rest)
  {
    var pre := [ds[0]];
    assert ds[0] in ds && pre[..0] == [] && DecimalValue(pre) == Digit(ds[0]);
    assert ds == pre + ds[1..] && (ds + rest)[1..] == ds[1..] + rest;
    DigitsMean(pre, ds[1..], rest);
  }

  /** A number is read iff the text starts with it. */
  lemma NumberRead(s: string, neg: bool, v: nat, rest: string)
    ensures ReadNumber(s) == Got((neg, v), rest) <==> Starts(s, neg, v, rest)
  {
    hide ReadNumber, Starts;
    if Starts(s, neg, v, rest) {
      NumberStarts(s, neg, v, rest);
    }
    if ReadNumber(s) == Got((neg, v), rest) {
      NumberBefore(s, neg, v, rest);
    }
  }

  lemma NumberBefore(s: string, neg: bool, v: nat, rest: string)
    requires ReadNumber(s) == Got((neg, v), rest)
    ensures Starts(s, neg, v, rest)
  {
    hide IsSpace, IsDigit, Digits, DecimalValue, Numeral, SkipWs;
    var ws := SpaceBefore(s);
    var t := SkipWs(s);
    var sign, u := if t[0] == '-' || t[0] == '+' then [t[0]] else [], if t[0] == '-' || t[0] == '+' then t[1..] else t;
    assert t == sign + u;
    var d := UnsignedBefore(u, v, rest);
    NumeralIs(sign, d, neg);
    Regroup(ws, sign, d, rest);
  }

  lemma Regroup(a: string, b: string, c: string, d: string)
    ensures a + (b + (c + d)) == a + (b + c) + d
  {
  }

  lemma UnsignedBefore(u: string, v: nat, rest: string) returns (d: string)
    requires u != [] && IsDigit(u[0]) && Digits(Digit(u[0]), u[1..]) == (v, rest)
    ensures d != [] && AllDigits(d) && DecimalValue(d) == v && u == d + rest && NoDigit(rest)
  {
    hide Digits, DecimalValue;
    var ds := DigitsBefore(Digit(u[0]), u[1..]);
    d := [u[0]] + ds;
    assert u == [u[0]] + u[1..] == d + rest;
    UnsignedRead(d, rest);
  }

  lemma NumeralIs(sign: string, d: string, neg: bool)
    requires d != [] && AllDigits(d) && (if neg then sign == "-" else sign == "" || sign == "+")
    ensures Numeral(sign + d, neg, DecimalValue(d))
  {
  }

  lemma NumberStarts(s: string, neg: bool, v: nat, rest: string)
    requires Starts(s, neg, v, rest)
    ensures ReadNumber(s) == Got((neg, v), rest)
  {
    hide Digits, DecimalValue;
    var ws, d :| AllSpace(ws) && Numeral(d, neg, v) && NoDigit(rest) && s == ws + d + rest;
    var sign, ds :| d == sign + ds && (if neg then sign == "-" else sign == "" || sign == "+")
      && ds != [] && AllDigits(ds) && DecimalValue(ds) == v;
    hide ReadNumber, SkipWs, IsDigit;
    UnsignedRead(ds, rest);
    assert s == ws + (sign + (ds + rest));
    SkipSpace(ws, sign + (ds + rest));
    SignedRead(s, sign, ds + rest, neg, v, rest);
  }

  lemma SignedRead(s: string, sign: string, u: string, neg: bool, v: nat, rest: string)
    requires SkipWs(s) == SkipWs(sign + u) && u != [] && IsDigit(u[0]) && Digits(Digit(u[0]), u[1..]) == (v, rest)
    requires if neg then sign == "-" else sign == "" || sign == "+"
    ensures ReadNumber(s) == Got((neg, v), rest)
  {
    hide Digits, SkipWs;
    assert sign != [] ==> (sign + u)[1..] == u;
    assert sign == [] ==> sign + u == u;
    SignNoSpace(sign + u);
    SignNoSpace(u);
  }

  lemma SignNoSpace(t: string)
    requires t != [] && (IsDigit(t[0]) || t[0] == '-' || t[0] == '+')
    ensures SkipWs(t) == t && (IsDigit(t[0]) ==> t[0] != '-' && t[0] != '+')
  {
  }

  /** A line that ends with the zero of a clause: numbers with optional signs, which need not be separated where a sign
      separates them, nonzero and declared before the last one. */
  ghost predicate Written(s: string, n: nat, C: Clause)
    decreases |C|
  {
    if C == [] then exists neg :: Starts(s, neg, 0, [])
    else
      && C[0] != 0 && Var(C[0]) <= n && INT_MIN < C[0] <= INT_MAX
      && exists rest: string :: Starts(s, C[0] < 0, Var(C[0]), rest) && Written(rest, n, C[1..])
  }

  lemma LiteralRead(s: string, z: int, rest: string)
    requires INT_MIN <= z <= INT_MAX && z != 0
    ensures ReadLiteral(s) == Got(z, rest) <==> Starts(s, z < 0, Var(z), rest)
  {
    hide ReadNumber, Starts;
    NumberRead(s, z < 0, Var(z), rest);
  }

  lemma ZeroRead(s: string, rest: string)
    ensures ReadLiteral(s) == Got(0, rest) <==> Starts(s, true, 0, rest) || Starts(s, false, 0, rest)
  {
    hide ReadNumber, Starts;
    NumberRead(s, true, 0, rest);
    NumberRead(s, false, 0, rest);
  }

  /** A clause is read from a line iff it is written there. */
  lemma {:induction false} ClauseRead(s: string, n: nat, C: Clause, lineNo: nat)
    ensures ClauseFrom(s, n, lineNo) == Ok(C) <==> Written(s, n, C)
    decreases |s| + |C|
  {
    hide ReadLiteral, Starts;
    if ClauseFrom(s, n, lineNo) == Ok(C) {
      var e := ReadLiteral(s);
      if e.value == 0 {
        ZeroRead(s, []);
      } else {
        LiteralRead(s, e.value, e.rest);
        ClauseRead(e.rest, n, C[1..], lineNo);
      }
    }
    if Written(s, n, C) {
      if C == [] {
        ZeroRead(s, []);
      } else {
        var rest: string :| Starts(s, C[0] < 0, Var(C[0]), rest) && Written(rest, n, C[1..]);
        LiteralRead(s, C[0], rest);
        ClauseRead(rest, n, C[1..], lineNo);
        assert [C[0]] + C[1..] == C;
      }
    }
  }

  /** A 64-bit number that a text starts with; a minus sign wraps it around. */
  ghost predicate SizeStarts(s: string, n: nat, rest: string) {
    exists neg, v: nat :: Starts(s, neg, v, rest) && v < SIZES && n == if neg then (SIZES - v) % SIZES else v
  }

  lemma SizeRead(s: string, n: nat, rest: string)
    ensures ReadSize(s) == Got(n, rest) <==> SizeStarts(s, n, rest)
  {
    hide ReadNumber, Starts;
    if ReadSize(s) == Got(n, rest) {
      var r := ReadNumber(s);
      NumberRead(s, r.value.0, r.value.1, rest);
    }
    if SizeStarts(s, n, rest) {
      var neg, v: nat :| Starts(s, neg, v, rest) && v < SIZES && n == if neg then (SIZES - v) % SIZES else v;
      NumberRead(s, neg, v, rest);
    }
  }

  /** The first word of s is w. */
  ghost predicate WordStarts(s: string, w: string, rest: string) {
    exists ws: string ::
      AllSpace(ws) && w != [] && (forall c :: c in w ==> !IsSpace(c)) && Breaks(rest) && s == ws + w + rest
  }

  lemma TokenRead(s: string, w: string, rest: string)
    ensures ReadToken(s) == Got(w, rest) <==> WordStarts(s, w, rest)
  {
    hide ReadToken, WordStarts;
    if ReadToken(s) == Got(w, rest) {
      TokenBefore(s, w, rest);
    }
    if WordStarts(s, w, rest) {
      TokenStarts(s, w, rest);
    }
  }

  lemma TokenBefore(s: string, w: string, rest: string)
    requires ReadToken(s) == Got(w, rest)
    ensures WordStarts(s, w, rest)
  {
    hide IsSpace, SkipWs, Word;
    var ws := SpaceBefore(s);
    WordBefore(SkipWs(s));
    assert ws + (w + rest) == ws + w + rest;
  }

  lemma TokenStarts(s: string, w: string, rest: string)
    requires WordStarts(s, w, rest)
    ensures ReadToken(s) == Got(w, rest)
  {
    var ws: string :| AllSpace(ws) && w != [] && (forall c :: c in w ==> !IsSpace(c)) && Breaks(rest)
      && s == ws + w + rest;
    hide SkipWs, Word;
    assert s == ws + (w + rest) && w[0] in w;
    SkipSpace(ws, w + rest);
    SkipOne(w + rest);
    WordShown(w, rest);
    assert (w + rest)[|w|..] == rest;
  }

  lemma {:induction false} WordBefore(t: string)
    requires t == [] || !IsSpace(t[0])
    ensures var w := Word(t); t == w + t[|w|..] && Breaks(t[|w|..]) && (forall c :: c in w ==> !IsSpace(c))
    ensures t != [] ==> Word(t) != []
  {
    if t != [] {
      if |t| > 1 && !IsSpace(t[1]) {
        WordBefore(t[1..]);
      }
      assert t == [t[0]] + t[1..];
    }
  }

  /** The problem line for n variables and k clauses. */
  ghost predicate HeaderWritten(l: string, n: nat, k: nat) {
    exists a, b, c, d :: WordStarts(l, "p", a) && WordStarts(a, "cnf", b) && SizeStarts(b, n, c) && SizeStarts(c, k, d)
      && AllSpace(d)
  }

  ghost predicate HeaderSays(l: string, n: nat, k: nat) {
    var t := ReadToken(l);
    t.Got? && t.value == "p" && Header(t.rest, 0) == Ok((n, k))
  }

  lemma HeaderRead(l: string, n: nat, k: nat)
    ensures HeaderSays(l, n, k) <==> HeaderWritten(l, n, k)
  {
    hide ReadToken, ReadSize, WordStarts, SizeStarts;
    if HeaderSays(l, n, k) {
      var a := ReadToken(l).rest;
      var b := ReadToken(a).rest;
      var c := ReadSize(b).rest;
      var d := ReadSize(c).rest;
      TokenRead(l, "p", a);
      TokenRead(a, "cnf", b);
      SizeRead(b, n, c);
      SizeRead(c, k, d);
      NoWord(d);
    }
    if HeaderWritten(l, n, k) {
      var a, b, c, d :| WordStarts(l, "p", a) && WordStarts(a, "cnf", b) && SizeStarts(b, n, c) && SizeStarts(c, k, d)
        && AllSpace(d);
      TokenRead(l, "p", a);
      TokenRead(a, "cnf", b);
      SizeRead(b, n, c);
      SizeRead(c, k, d);
      NoWord(d);
    }
  }

  lemma NoWord(d: string)
    ensures ReadToken(d).Failed? <==> AllSpace(d)
  {
    var ws := SpaceBefore(d);
    if SkipWs(d) == [] {
      assert d == ws;
    }
    if AllSpace(d) {
      SkipSpace(d, []);
      assert d + [] == d;
    }
  }

  // ---------- what is accepted ----------

  /** The lines say the problem: a problem line first, then one line for each clause. */
  ghost predicate Says(ls: seq<string>, p: SATProblem) {
    && |ls| == |p.clauses| + 1 && HeaderWritten(ls[0], p.variableCount, |p.clauses|)
    && forall i :: 0 <= i < |p.clauses| ==> Written(ls[i + 1], p.variableCount, p.clauses[i])
  }

  /** A line of a clause starts with a number. */
  lemma ClauseWord(l: string, n: nat, lineNo: nat)
    requires ClauseFrom(l, n, lineNo).Ok?
    ensures ReadToken(l).Got? && ReadToken(l).value != "c" && ReadToken(l).value != "p"
  {
    var t := SkipWs(l);
    assert Word(t) != [] ==> Word(t)[0] == t[0];
  }

  ghost predicate NoneSkipped(ls: seq<string>) {
    forall l :: l in ls ==> !Skipped(l)
  }

  lemma {:induction false} SignificantLeft(ls: seq<string>)
    ensures NoneSkipped(Significant(ls))
  {
    hide Skipped;
    if ls != [] {
      SignificantLeft(ls[1..]);
    }
  }

  lemma {:induction false} ClausesRead(st: Reader, ls: seq<string>, i: nat, cs: seq<Clause>)
    requires st.headerSeen && |ls| == |cs| && |st.problem.clauses| + |cs| <= st.expected
    requires forall j :: 0 <= j < |cs| ==> ClauseFrom(ls[j], st.problem.variableCount, 0) == Ok(cs[j])
    ensures ReadLines(st, ls, i) == Ok(st.(problem := st.problem.(clauses := st.problem.clauses + cs)))
    decreases |ls|
  {
    hide ReadToken, Header, ClauseFrom;
    var p := st.problem;
    if ls == [] {
      assert p.clauses + cs == p.clauses;
    } else {
      var next := st.(problem := p.(clauses := p.clauses + [cs[0]]));
      ClauseWord(ls[0], p.variableCount, 0);
      ClauseAlike(ls[0], p.variableCount, 0, i + 1);
      assert ReadLine(st, ls[0], i + 1) == Ok(next);
      ClausesRead(next, ls[1..], i + 1, cs[1..]);
      assert p.clauses + [cs[0]] + cs[1..] == p.clauses + cs;
    }
  }

  lemma {:induction false} ClausesOnly(st: Reader, ls: seq<string>, i: nat) returns (cs: seq<Clause>)
    requires st.headerSeen && NoneSkipped(ls) && ReadLines(st, ls, i).Ok?
    ensures |cs| == |ls| && forall j :: 0 <= j < |cs| ==> ClauseFrom(ls[j], st.problem.variableCount, 0) == Ok(cs[j])
    ensures ReadLines(st, ls, i) == Ok(st.(problem := st.problem.(clauses := st.problem.clauses + cs)))
    decreases |ls|
  {
    hide ReadToken, Header, ClauseFrom, Skipped;
    var p := st.problem;
    cs := [];
    if ls == [] {
      assert p.clauses + [] == p.clauses;
    } else {
      assert ls[0] in ls;
      SkippedIs(ls[0]);
      ClauseAlike(ls[0], p.variableCount, i + 1, 0);
      var C := ClauseFrom(ls[0], p.variableCount, i + 1).value;
      var next := st.(problem := p.(clauses := p.clauses + [C]));
      assert ReadLine(st, ls[0], i + 1) == Ok(next);
      cs := ClausesOnly(next, ls[1..], i + 1);
      assert p.clauses + [C] + cs == p.clauses + ([C] + cs);
      cs := [C] + cs;
    }
  }

  /** A text is accepted as a problem iff its significant lines say that problem. */
  lemma Accepted(text: string, p: SATProblem)
    ensures Parsed(text) == Ok(p) <==> Says(Significant(Lines(text)), p)
  {
    hide Skipped, Lines, Unnumbered, ReadLines, HeaderWritten, Written, Significant;
    var ls := Significant(Lines(text));
    SignificantLeft(Lines(text));
    SignificantRead(START, Lines(text), 0, 0);
    SameOk(ReadLines(START, Lines(text), 0), ReadLines(START, ls, 0));
    if Parsed(text) == Ok(p) {
      SaysRead(ls, p);
    }
    if Says(ls, p) {
      ReadSays(ls, p);
    }
  }

  lemma SameOk(r: Result<Reader>, q: Result<Reader>)
    requires Unnumbered(r) == Unnumbered(q)
    ensures r.Ok? || q.Ok? ==> r == q
  {
  }

  lemma SaysRead(ls: seq<string>, p: SATProblem)
    requires NoneSkipped(ls) && ReadLines(START, ls, 0).Ok? && Finish(ReadLines(START, ls, 0).value) == Ok(p)
    ensures Says(ls, p)
  {
    hide ReadToken, Header, ClauseFrom, HeaderWritten, Written, Skipped;
    assert ls[0] in ls;
    SkippedIs(ls[0]);
    var t := ReadToken(ls[0]);
    HeaderAlike(t.rest, 1, 0);
    var h := Header(t.rest, 1).value;
    HeaderRead(ls[0], h.0, h.1);
    var st := Reader(true, h.1, SATProblem([], h.0));
    var cs := ClausesOnly(st, ls[1..], 1);
    assert [] + cs == cs;
    forall i | 0 <= i < |cs|
      ensures Written(ls[i + 1], h.0, cs[i])
    {
      ClauseRead(ls[i + 1], h.0, cs[i], 0);
    }
  }

  lemma HeaderAlike(s: string, i: nat, j: nat)
    ensures Header(s, i).Ok? ==> Header(s, j) == Header(s, i)
  {
    hide ReadToken, ReadSize;
  }

  lemma ReadSays(ls: seq<string>, p: SATProblem)
    requires Says(ls, p)
    ensures ReadLines(START, ls, 0).Ok? && Finish(ReadLines(START, ls, 0).value) == Ok(p)
  {
    hide ReadToken, Header, ClauseFrom, HeaderWritten, Written;
    HeaderRead(ls[0], p.variableCount, |p.clauses|);
    HeaderAlike(ReadToken(ls[0]).rest, 0, 1);
    var st := Reader(true, |p.clauses|, SATProblem([], p.variableCount));
    assert ReadLine(START, ls[0], 1) == Ok(st);
    forall i | 0 <= i < |p.clauses|
      ensures ClauseFrom(ls[1..][i], p.variableCount, 0) == Ok(p.clauses[i])
    {
      ClauseRead(ls[i + 1], p.variableCount, p.clauses[i], 0);
    }
    ClausesRead(st, ls[1..], 1, p.clauses);
    assert [] + p.clauses == p.clauses;
  }

  // ---------- what is wrong with a text that is not accepted ----------

  /** The literals C can be read from s, nonzero and declared, and rest is left. */
  ghost predicate Reads(s: string, n: nat, C: Clause, rest: string)
    decreases |C|
  {
    if C == [] then rest == s
    else
      && C[0] != 0 && Var(C[0]) <= n && INT_MIN < C[0] <= INT_MAX
      && exists t: string :: Starts(s, C[0] < 0, Var(C[0]), t) && Reads(t, n, C[1..], rest)
  }

  /** No 32-bit number can be read from s. */
  ghost predicate NoLiteral(s: string) {
    forall neg, v: nat, rest :: Starts(s, neg, v, rest) ==> v > INT_MAX + if neg then 1 else 0
  }

  /** There is no number, something behind the zero, the least number, or an undeclared one. */
  ghost predicate FaultAt(s: string, n: nat, e: ParseError) {
    match e
    case MissingZero(_) => NoLiteral(s)
    case NonIntegerToken(_) => exists neg, t :: Starts(s, neg, 0, t) && t != []
    case LiteralOutOfRange(_) => exists v: nat, t :: Starts(s, true, v, t) && v == -INT_MIN
    case LiteralUndeclared(_) => exists neg, v: nat, t :: Starts(s, neg, v, t) && n < v <= INT_MAX
    case _ => false
  }

  /** The same after some literals. */
  ghost predicate ClauseFault(s: string, n: nat, e: ParseError) {
    exists C, rest: string :: Reads(s, n, C, rest) && FaultAt(rest, n, e)
  }

  lemma LiteralStarts(s: string)
    ensures var e := ReadLiteral(s);
      if e.Failed? then NoLiteral(s) else exists neg :: Starts(s, neg, Var(e.value), e.rest) && (e.value < 0 ==> neg)
  {
    hide Starts, ReadNumber;
    var r := ReadNumber(s);
    if r.Got? {
      NumberRead(s, r.value.0, r.value.1, r.rest);
      var e := ReadLiteral(s);
      assert e.Got? ==> Var(e.value) == r.value.1 && e.rest == r.rest;
    }
    forall neg, v: nat, rest | Starts(s, neg, v, rest)
      ensures r == Got((neg, v), rest)
    {
      NumberRead(s, neg, v, rest);
    }
  }

  lemma {:induction false} ClauseFails(s: string, n: nat, lineNo: nat)
    ensures var r := ClauseFrom(s, n, lineNo); r.Err? ==> ClauseFault(s, n, r.error)
    decreases |s|
  {
    hide ReadLiteral, Starts, NoLiteral;
    var e := ReadLiteral(s);
    LiteralStarts(s);
    assert Reads(s, n, [], s);
    if e.Got? && e.value != 0 && e.value != INT_MIN && Var(e.value) <= n {
      var r := ClauseFrom(e.rest, n, lineNo);
      if r.Err? {
        ClauseFails(e.rest, n, lineNo);
        LiteralRead(s, e.value, e.rest);
        FaultAfter(s, n, e.value, e.rest, r.error);
      }
    }
  }

  lemma FaultAfter(s: string, n: nat, z: int, t: string, e: ParseError)
    requires z != 0 && Var(z) <= n && INT_MIN < z <= INT_MAX && Starts(s, z < 0, Var(z), t) && ClauseFault(t, n, e)
    ensures ClauseFault(s, n, e)
  {
    hide Starts, FaultAt;
    var C, rest: string :| Reads(t, n, C, rest) && FaultAt(rest, n, e);
    assert ([z] + C)[1..] == C;
    assert Reads(s, n, [z] + C, rest);
  }

  /** The first word of the line is p. */
  ghost predicate ProblemLine(l: string) {
    exists rest :: WordStarts(l, "p", rest)
  }

  ghost predicate HasProblemLine(ls: seq<string>) {
    exists l :: l in ls && ProblemLine(l)
  }

  /** The number of the line an error is about, if it is about one. */
  function LineOf(e: ParseError): nat {
    match e
    case DuplicateHeader(i) => i
    case MalformedHeader(i) => i
    case TrailingInHeader(i) => i
    case ClauseBeforeHeader(i) => i
    case LiteralOutOfRange(i) => i
    case LiteralUndeclared(i) => i
    case MissingZero(i) => i
    case NonIntegerToken(i) => i
    case _ => 0
  }

  /** Line l, after the lines before it, is the one the error is about. */
  ghost predicate LineFault(before: seq<string>, l: string, e: ParseError) {
    && !Skipped(l)
    && match e {
      case DuplicateHeader(_) => ProblemLine(l) && HasProblemLine(before)
      case MalformedHeader(_) =>
        ProblemLine(l) && !HasProblemLine(before) && !exists n, k :: HeaderWritten(l, n, k)
      case TrailingInHeader(_) =>
        ProblemLine(l) && !HasProblemLine(before) && !exists n, k :: HeaderWritten(l, n, k)
      case ClauseBeforeHeader(_) => !ProblemLine(l) && !HasProblemLine(before)
      case _ =>
        !ProblemLine(l) && exists h, n, k :: h in before && HeaderWritten(h, n, k) && ClauseFault(l, n, e)
    }
  }

  lemma ProblemLineIs(l: string)
    ensures ProblemLine(l) <==> ReadToken(l).Got? && ReadToken(l).value == "p"
  {
    hide ReadToken, WordStarts;
    var t := ReadToken(l);
    if t.Got? && t.value == "p" {
      TokenRead(l, "p", t.rest);
    }
    if ProblemLine(l) {
      var rest :| WordStarts(l, "p", rest);
      TokenRead(l, "p", rest);
    }
  }

  /** What the lines read so far say about the state. */
  ghost predicate After(before: seq<string>, st: Reader) {
    && (st.headerSeen <==> HasProblemLine(before))
    && (st.headerSeen ==> exists h :: h in before && HeaderWritten(h, st.problem.variableCount, st.expected))
  }

  lemma LineFails(before: seq<string>, l: string, st: Reader, i: nat)
    requires After(before, st)
    ensures var r := ReadLine(st, l, i);
      if r.Ok? then After(before + [l], r.value)
      else r.error == MoreClausesThanDeclared || (LineOf(r.error) == i && LineFault(before, l, r.error))
  {
    hide ReadToken, Header, ClauseFrom, HeaderWritten, Skipped, ClauseFault, WordStarts;
    SkippedIs(l);
    ProblemLineIs(l);
    AfterMore(before, l);
    var t := ReadToken(l);
    if t.Got? && t.value == "p" {
      HeaderFails(l, i);
    } else if !Skipped(l) && st.headerSeen {
      ClauseFails(l, st.problem.variableCount, i);
      ClauseLineOf(l, st.problem.variableCount, i);
    }
  }

  lemma AfterMore(before: seq<string>, l: string)
    ensures HasProblemLine(before + [l]) <==> HasProblemLine(before) || ProblemLine(l)
    ensures forall h :: h in before ==> h in before + [l]
    ensures l in before + [l]
  {
    hide ProblemLine;
    if HasProblemLine(before) {
      var h :| h in before && ProblemLine(h);
      assert h in before + [l];
    }
    assert l in before + [l];
  }

  lemma HeaderFails(l: string, i: nat)
    requires ReadToken(l).Got? && ReadToken(l).value == "p"
    ensures var h := Header(ReadToken(l).rest, i);
      if h.Ok? then HeaderWritten(l, h.value.0, h.value.1)
      else LineOf(h.error) == i && (h.error.MalformedHeader? || h.error.TrailingInHeader?)
           && !exists n, k :: HeaderWritten(l, n, k)
  {
    hide ReadToken, ReadSize, HeaderWritten;
    var h := Header(ReadToken(l).rest, i);
    HeaderAlike(ReadToken(l).rest, i, 0);
    HeaderAlike(ReadToken(l).rest, 0, i);
    forall n: nat, k: nat
      ensures HeaderWritten(l, n, k) <==> h == Ok((n, k))
    {
      HeaderRead(l, n, k);
    }
  }

  predicate InClause(e: ParseError) {
    e.MissingZero? || e.NonIntegerToken? || e.LiteralOutOfRange? || e.LiteralUndeclared?
  }

  lemma {:induction false} ClauseLineOf(s: string, n: nat, i: nat)
    ensures var r := ClauseFrom(s, n, i); r.Err? ==> LineOf(r.error) == i && InClause(r.error)
    decreases |s|
  {
    hide ReadLiteral;
    var e := ReadLiteral(s);
    if e.Got? && e.value != 0 {
      ClauseLineOf(e.rest, n, i);
    }
  }

  /** What an error says about the lines. */
  ghost predicate Fault(ls: seq<string>, e: ParseError) {
    match e
    case CannotOpen => false
    case MissingHeader => !HasProblemLine(ls)
    case ClauseCountMismatch => HasProblemLine(ls)
    case MoreClausesThanDeclared => HasProblemLine(ls)
    case _ => 1 <= LineOf(e) <= |ls| && LineFault(ls[..LineOf(e) - 1], ls[LineOf(e) - 1], e)
  }

  lemma {:induction false} LinesFail(ls: seq<string>, k: nat, st: Reader)
    requires k <= |ls| && After(ls[..k], st)
    ensures var r := ReadLines(st, ls[k..], k);
      if r.Ok? then After(ls, r.value)
      else !r.error.MissingHeader? && !r.error.ClauseCountMismatch? && Fault(ls, r.error)
    decreases |ls| - k
  {
    hide ReadLine, After, LineFault, HasProblemLine;
    if k < |ls| {
      assert ls[k..][0] == ls[k] && ls[k..][1..] == ls[k + 1..] && ls[..k + 1] == ls[..k] + [ls[k]];
      LineFails(ls[..k], ls[k], st, k + 1);
      var r := ReadLine(st, ls[k], k + 1);
      if r.Ok? {
        LinesFail(ls, k + 1, r.value);
      } else {
        LineError(ls[..k], ls[k], st, k + 1);
        PrefixHas(ls, k);
      }
    } else {
      assert ls[..k] == ls && ls[k..] == [];
    }
  }

  lemma PrefixHas(ls: seq<string>, k: nat)
    requires k <= |ls|
    ensures HasProblemLine(ls[..k]) ==> HasProblemLine(ls)
  {
  }

  lemma LineError(before: seq<string>, l: string, st: Reader, i: nat)
    requires After(before, st) && ReadLine(st, l, i).Err?
    ensures var e := ReadLine(st, l, i).error;
      && !e.MissingHeader? && !e.ClauseCountMismatch? && !e.CannotOpen?
      && (e.MoreClausesThanDeclared? ==> HasProblemLine(before))
  {
    hide ReadToken, Header, ClauseFrom, HasProblemLine, HeaderWritten;
    ClauseLineOf(l, st.problem.variableCount, i);
    if ReadToken(l).Got? && ReadToken(l).value == "p" {
      HeaderFails(l, i);
    }
  }

  /** The error of a text that is not accepted is true of its lines. */
  lemma Rejected(text: string)
    ensures var r := Parsed(text); r.Err? ==> Fault(Lines(text), r.error)
  {
    hide Lines, ReadLines, LineFault, HasProblemLine;
    var ls := Lines(text);
    assert ls[0..] == ls && ls[..0] == [];
    NothingRead();
    LinesFail(ls, 0, START);
  }

  lemma NothingRead()
    ensures After([], START)
  {
  }
}
