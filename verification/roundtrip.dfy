/**
 * The other direction of the printer: the parser of src/Parser.js reads
 * the text of a canonical tree back as that tree, provided the text that
 * follows could end the tree in a program (`Printer.FollowsS` and its
 * relatives), and `parse` inverts printing on whole programs. The
 * converse, that the parser builds only canonical trees, is the module
 * Canonicity.
 */
module RoundTrip {
  import opened Utils
  import opened Ast
  import opened Parser
  import opened Printer

  /** The front symbol of `[c] + s` is `c`, and `next()` gives back `s`. */
  lemma ConsNext(c: char, s: Stream)
    ensures Peek([c] + s) == Some(c) && Next([c] + s) == s
  {
    PeekNext([c] + s);
  }

  /** The length of the longest run of `P`-symbols at the front of `s`. */
  function RunLength<T>(s: seq<T>, P: T -> bool): nat
    decreases |s|
  {
    if |s| > 0 && P(s[0]) then 1 + RunLength(s[1..], P) else 0
  }

  /** A run of `P`-symbols followed by a rest that does not start with one is the longest run. */
  lemma {:induction false} RunLengthOf<T>(a: seq<T>, b: seq<T>, P: T -> bool)
    requires forall i | 0 <= i < |a| :: P(a[i])
    requires b == [] || !P(b[0])
    ensures RunLength(a + b, P) == |a|
    decreases |a|
  {
    if |a| > 0 {
      assert (a + b)[0] == a[0];
      assert (a + b)[1..] == a[1..] + b;
      RunLengthOf(a[1..], b, P);
    } else {
      assert a + b == b;
    }
  }

  /**
   * Two ways of splitting one stream into a run of `P`-symbols and a rest
   * that does not start with one agree: a maximal run is unique.
   */
  lemma MaximalRunUnique<T>(a: seq<T>, b: seq<T>, c: seq<T>, e: seq<T>, P: T -> bool)
    requires forall i | 0 <= i < |a| :: P(a[i])
    requires forall i | 0 <= i < |c| :: P(c[i])
    requires b == [] || !P(b[0])
    requires e == [] || !P(e[0])
    requires a + b == c + e
    ensures a == c && b == e
  {
    RunLengthOf(a, b, P);
    RunLengthOf(c, e, P);
    assert a == (a + b)[..|a|];
    assert c == (c + e)[..|c|];
    assert b == (a + b)[|a|..];
    assert e == (c + e)[|c|..];
  }

  /** `parseD` reads a canonical run back when no bit follows it. */
  lemma RoundTripD(d: D, rest: Stream)
    requires CanonicalD(d) && (rest == [] || !IsBit(rest[0]))
    ensures ParseD(DigitsOf(d) + rest) == Success(Pair(d, rest))
  {
    var p := ParseD(DigitsOf(d) + rest).value;
    MaximalRunUnique(DigitsOf(d), rest, DigitsOf(p.left), p.right, IsBit);
  }

  /** `parseVar` reads a name back when no name symbol follows it. */
  lemma RoundTripVar(v: Var, rest: Stream)
    requires IsName(v.name) && (rest == [] || !IsVarChar(rest[0]))
    ensures ParseVar(v.name + rest) == Success(Pair(v, rest))
  {
    var p := ParseVar(v.name + rest).value;
    MaximalRunUnique(v.name, rest, p.left.name, p.right, IsVarChar);
  }

  /** What may follow a number: anything but a bit or `.`. */
  predicate EndsNumber(rest: Stream) {
    rest == [] || !(IsBit(rest[0]) || rest[0] == '.')
  }

  /** `D . D` is not read when the text starts with `-`. */
  lemma PointNeedsUnsigned(x: Stream)
    requires |x| > 0 && x[0] == '-'
    ensures PointNumber(x).Failure?
  {
    assert ParseD(x).value.right == x;
  }

  lemma RoundTripPoint(n: N, rest: Stream)
    requires CanonicalN(n) && EndsNumber(rest) && !n.negative && n.fraction.Some?
    ensures ParseN(PrintN(n, rest)) == Success(Pair(n, rest))
  {
    var x := PrintN(n, rest);
    var tail := DigitsOf(n.fraction.value) + rest;
    RoundTripD(n.integer, ['.'] + tail);
    ConsNext('.', tail);
    RoundTripD(n.fraction.value, rest);
    assert PointNumber(x) == Success(Pair(n, rest));
    OrOfFour(PointNumber(x), NegativePointNumber(x, ParseFailure),
             NegativeNumber(x, ParseFailure), DigitsNumber(x, false), ParseFailure);
  }

  lemma RoundTripNegativePoint(n: N, rest: Stream)
    requires CanonicalN(n) && EndsNumber(rest) && n.negative && n.fraction.Some?
    ensures ParseN(PrintN(n, rest)) == Success(Pair(n, rest))
  {
    var tail := DigitsOf(n.fraction.value) + rest;
    var unsigned := DigitsOf(n.integer) + (['.'] + tail);
    var x := ['-'] + unsigned;
    assert PrintN(n, rest) == x;
    PointNeedsUnsigned(x);
    ConsNext('-', unsigned);
    RoundTripD(n.integer, ['.'] + tail);
    ConsNext('.', tail);
    RoundTripD(n.fraction.value, rest);
    assert NegativePointNumber(x, ParseFailure) == Success(Pair(n, rest));
    OrOfFour(PointNumber(x), NegativePointNumber(x, ParseFailure),
             NegativeNumber(x, ParseFailure), DigitsNumber(x, false), ParseFailure);
  }

  lemma RoundTripNegative(n: N, rest: Stream)
    requires CanonicalN(n) && EndsNumber(rest) && n.negative && n.fraction.None?
    ensures ParseN(PrintN(n, rest)) == Success(Pair(n, rest))
  {
    var unsigned := DigitsOf(n.integer) + rest;
    var x := ['-'] + unsigned;
    assert PrintN(n, rest) == x;
    PointNeedsUnsigned(x);
    ConsNext('-', unsigned);
    RoundTripD(n.integer, rest);
    assert NegativePointNumber(x, ParseFailure).Failure?;
    assert NegativeNumber(x, ParseFailure) == Success(Pair(n, rest));
    OrOfFour(PointNumber(x), NegativePointNumber(x, ParseFailure),
             NegativeNumber(x, ParseFailure), DigitsNumber(x, false), ParseFailure);
  }

  lemma RoundTripDigits(n: N, rest: Stream)
    requires CanonicalN(n) && EndsNumber(rest) && !n.negative && n.fraction.None?
    ensures ParseN(PrintN(n, rest)) == Success(Pair(n, rest))
  {
    var x := DigitsOf(n.integer) + rest;
    assert PrintN(n, rest) == x;
    RoundTripD(n.integer, rest);
    assert PointNumber(x).Failure?;
    assert x[0] == n.integer.bits.value[0];
    assert DigitsNumber(x, false) == Success(Pair(n, rest));
    OrOfFour(PointNumber(x), NegativePointNumber(x, ParseFailure),
             NegativeNumber(x, ParseFailure), DigitsNumber(x, false), ParseFailure);
  }

  /** `parseN` reads a canonical number back when no bit or `.` follows it. */
  lemma RoundTripN(n: N, rest: Stream)
    requires CanonicalN(n) && EndsNumber(rest)
    ensures ParseN(PrintN(n, rest)) == Success(Pair(n, rest))
  {
    if n.fraction.Some? {
      if n.negative {
        RoundTripNegativePoint(n, rest);
      } else {
        RoundTripPoint(n, rest);
      }
    } else if n.negative {
      RoundTripNegative(n, rest);
    } else {
      RoundTripDigits(n, rest);
    }
  }

  /** The operator step succeeds on a result followed by one of `ops`. */
  lemma OperatorFollows<L>(left: Parsed<L>, tree: L, op: char, tail: Stream, ops: set<char>)
    requires left == Success(Pair(tree, [op] + tail)) && op in ops
    ensures ParseOperator(left, ops) == Success(Operand(tree, op, tail))
  {
    ConsNext(op, tail);
  }

  /** The operator step fails on a result not followed by one of `ops`. */
  lemma NoOperatorFollows<L>(left: Parsed<L>, ops: set<char>)
    requires left.Success? ==> left.value.right == [] || left.value.right[0] !in ops
    ensures ParseOperator(left, ops).Failure?
  {
  }

  /** A canonical `E` other than a number starts with `(` or a name symbol other than `.`. */
  lemma NoNumberAhead(e: E, rest: Stream)
    requires CanonicalE(e) && !e.EN?
    ensures ParseN(PrintE(e, rest)).Failure?
  {
    var x := PrintE(e, rest);
    if e.EParen? {
      assert x[0] == '(';
    } else {
      assert x[0] == e.v.name[0];
    }
  }

  /** An `F` that is not a lone number leaves no number followed by `+` or `-`. */
  lemma NoAdditiveNumberAhead(f: F, rest: Stream)
    requires CanonicalF(f) && !(f.FE? && f.e.EN?)
    ensures ParseOperator(ParseN(PrintF(f, rest)), AdditiveOps).Failure?
  {
    match f
    case FNF(n, op, f') =>
      var tail := PrintF(f', rest);
      assert ([op] + tail)[0] == op;
      RoundTripN(n, [op] + tail);
    case FEF(e, op, f') =>
      NoNumberAhead(e, [op] + PrintF(f', rest));
    case FE(e) =>
      NoNumberAhead(e, rest);
  }

  /** A lone `F` followed by what may follow an `S` leaves no number followed by `+` or `-`. */
  lemma LoneFNoAdditiveNumber(f: F, rest: Stream)
    requires CanonicalF(f) && FollowsS(rest)
    ensures ParseOperator(ParseN(PrintF(f, rest)), AdditiveOps).Failure?
  {
    if f.FE? && f.e.EN? {
      assert PrintF(f, rest) == PrintN(f.e.n, rest);
      assert CanonicalE(f.e);
      RoundTripN(f.e.n, rest);
    } else {
      NoAdditiveNumberAhead(f, rest);
    }
  }

  /** A lone `E` followed by what may follow an `F` leaves no number followed by `*` or `/`. */
  lemma LoneENoMultiplicativeNumber(e: E, rest: Stream)
    requires CanonicalE(e) && FollowsF(rest)
    ensures ParseOperator(ParseN(PrintE(e, rest)), MultiplicativeOps).Failure?
  {
    if e.EN? {
      assert PrintE(e, rest) == PrintN(e.n, rest);
      assert EndsNumber(rest);
      RoundTripN(e.n, rest);
      NoOperatorFollows(ParseN(PrintN(e.n, rest)), MultiplicativeOps);
    } else {
      NoNumberAhead(e, rest);
    }
  }

  /** What follows an `F` or an `E` may end a number. */
  lemma FollowsEndsNumber(rest: Stream)
    requires FollowsE(rest)
    ensures EndsNumber(rest)
  {
  }

  /**
   * `parseS` reads a canonical `S` back when it is followed by the end, `;`
   * or `)`.
   */
  lemma {:induction false} RoundTripS(s: S, rest: Stream)
    requires CanonicalS(s) && FollowsS(rest)
    ensures ParseS(PrintS(s, rest)) == Success(Pair(s, rest))
    decreases s, 1
  {
    match s
    case SNS(_, _, _) => RoundTripSNS(s, rest);
    case SFS(_, _, _) => RoundTripSFS(s, rest);
    case SF(_) => RoundTripSF(s, rest);
  }

  lemma {:induction false} RoundTripSNS(s: S, rest: Stream)
    requires s.SNS? && CanonicalS(s) && FollowsS(rest)
    ensures ParseS(PrintS(s, rest)) == Success(Pair(s, rest))
    decreases s, 0
  {
    var tail := PrintS(s.s, rest);
    var x := PrintN(s.n, [s.op] + tail);
    assert PrintS(s, rest) == x;
    assert ([s.op] + tail)[0] == s.op;
    RoundTripN(s.n, [s.op] + tail);
    OperatorFollows(ParseN(x), s.n, s.op, tail, AdditiveOps);
    RoundTripS(s.s, rest);
    ParseSChoice(x);
  }

  lemma {:induction false} RoundTripSFS(s: S, rest: Stream)
    requires s.SFS? && CanonicalS(s) && FollowsS(rest)
    ensures ParseS(PrintS(s, rest)) == Success(Pair(s, rest))
    decreases s, 0
  {
    var tail := PrintS(s.s, rest);
    var x := PrintF(s.f, [s.op] + tail);
    assert PrintS(s, rest) == x;
    NoAdditiveNumberAhead(s.f, [s.op] + tail);
    RoundTripF(s.f, [s.op] + tail);
    OperatorFollows(ParseF(x), s.f, s.op, tail, AdditiveOps);
    RoundTripS(s.s, rest);
    ParseSChoice(x);
  }

  lemma {:induction false} RoundTripSF(s: S, rest: Stream)
    requires s.SF? && CanonicalS(s) && FollowsS(rest)
    ensures ParseS(PrintS(s, rest)) == Success(Pair(s, rest))
    decreases s, 0
  {
    var f := s.f;
    var x := PrintF(f, rest);
    assert PrintS(s, rest) == x;
    RoundTripF(f, rest);
    LoneFNoAdditiveNumber(f, rest);
    NoOperatorFollows(ParseF(x), AdditiveOps);
    ParseSChoice(x);
  }

  /** `parseF` reads a canonical `F` back when it is followed by what may follow an `F`. */
  lemma {:induction false} RoundTripF(f: F, rest: Stream)
    requires CanonicalF(f) && FollowsF(rest)
    ensures ParseF(PrintF(f, rest)) == Success(Pair(f, rest))
    decreases f, 1
  {
    match f
    case FNF(_, _, _) => RoundTripFNF(f, rest);
    case FEF(_, _, _) => RoundTripFEF(f, rest);
    case FE(_) => RoundTripFE(f, rest);
  }

  lemma {:induction false} RoundTripFNF(f: F, rest: Stream)
    requires f.FNF? && CanonicalF(f) && FollowsF(rest)
    ensures ParseF(PrintF(f, rest)) == Success(Pair(f, rest))
    decreases f, 0
  {
    var tail := PrintF(f.f, rest);
    var x := PrintN(f.n, [f.op] + tail);
    assert PrintF(f, rest) == x;
    assert ([f.op] + tail)[0] == f.op;
    RoundTripN(f.n, [f.op] + tail);
    OperatorFollows(ParseN(x), f.n, f.op, tail, MultiplicativeOps);
    RoundTripF(f.f, rest);
    ParseFChoice(x);
  }

  lemma {:induction false} RoundTripFEF(f: F, rest: Stream)
    requires f.FEF? && CanonicalF(f) && FollowsF(rest)
    ensures ParseF(PrintF(f, rest)) == Success(Pair(f, rest))
    decreases f, 0
  {
    var tail := PrintF(f.f, rest);
    var x := PrintE(f.e, [f.op] + tail);
    assert PrintF(f, rest) == x;
    NoNumberAhead(f.e, [f.op] + tail);
    NoOperatorFollows(ParseN(x), MultiplicativeOps);
    RoundTripE(f.e, [f.op] + tail);
    OperatorFollows(ParseE(x), f.e, f.op, tail, MultiplicativeOps);
    RoundTripF(f.f, rest);
    ParseFChoice(x);
  }

  lemma {:induction false} RoundTripFE(f: F, rest: Stream)
    requires f.FE? && CanonicalF(f) && FollowsF(rest)
    ensures ParseF(PrintF(f, rest)) == Success(Pair(f, rest))
    decreases f, 0
  {
    var e := f.e;
    var x := PrintE(e, rest);
    assert PrintF(f, rest) == x;
    RoundTripE(e, rest);
    LoneENoMultiplicativeNumber(e, rest);
    NoOperatorFollows(ParseE(x), MultiplicativeOps);
    ParseFChoice(x);
  }

  /** `parseE` reads a canonical `E` back when it is followed by what may follow an `E`. */
  lemma {:induction false} RoundTripE(e: E, rest: Stream)
    requires CanonicalE(e) && FollowsE(rest)
    ensures ParseE(PrintE(e, rest)) == Success(Pair(e, rest))
    decreases e, 1
  {
    match e
    case EParen(_) => RoundTripEParen(e, rest);
    case EN(_) => RoundTripEN(e, rest);
    case EVar(_) => RoundTripEVar(e, rest);
  }

  lemma {:induction false} RoundTripEParen(e: E, rest: Stream)
    requires e.EParen? && CanonicalE(e) && FollowsE(rest)
    ensures ParseE(PrintE(e, rest)) == Success(Pair(e, rest))
    decreases e, 0
  {
    var inner := PrintS(e.s, [')'] + rest);
    var x := ['('] + inner;
    assert PrintE(e, rest) == x;
    ConsNext('(', inner);
    RoundTripS(e.s, [')'] + rest);
    ConsNext(')', rest);
    ParseEChoice(x);
  }

  lemma RoundTripEN(e: E, rest: Stream)
    requires e.EN? && CanonicalE(e) && FollowsE(rest)
    ensures ParseE(PrintE(e, rest)) == Success(Pair(e, rest))
  {
    var x := PrintN(e.n, rest);
    assert PrintE(e, rest) == x;
    FollowsEndsNumber(rest);
    RoundTripN(e.n, rest);
    assert x[0] != '(';
    ParseEChoice(x);
  }

  lemma RoundTripEVar(e: E, rest: Stream)
    requires e.EVar? && CanonicalE(e) && FollowsE(rest)
    ensures ParseE(PrintE(e, rest)) == Success(Pair(e, rest))
  {
    var x := e.v.name + rest;
    assert PrintE(e, rest) == x;
    NoNumberAhead(e, rest);
    assert x[0] == e.v.name[0];
    RoundTripVar(e.v, rest);
    ParseEChoice(x);
  }

  /**
   * The name run at the front of `x` is not followed by `=`, so `x` does not
   * start an assignment.
   */
  predicate NoAssignAhead(x: Stream)
    decreases |x|
  {
    |x| == 0 || (if IsVarChar(x[0]) then NoAssignAhead(x[1..]) else x[0] != '=')
  }

  lemma NoAssignAheadCons(c: char, y: Stream)
    requires c != '=' && NoAssignAhead(y)
    ensures NoAssignAhead([c] + y)
  {
    assert ([c] + y)[1..] == y;
  }

  /** A symbol that ends a name, other than `=`, starts no assignment, whatever follows. */
  lemma NoAssignAheadStop(c: char, y: Stream)
    requires !IsVarChar(c) && c != '='
    ensures NoAssignAhead([c] + y)
  {
    assert ([c] + y)[0] == c;
  }

  /** Text without `=` in front of text that starts no assignment starts none either. */
  lemma {:induction false} NoAssignAheadConcat(a: Stream, y: Stream)
    requires forall i | 0 <= i < |a| :: a[i] != '='
    requires NoAssignAhead(y)
    ensures NoAssignAhead(a + y)
    decreases |a|
  {
    if |a| > 0 {
      assert a + y == [a[0]] + (a[1..] + y);
      NoAssignAheadConcat(a[1..], y);
      NoAssignAheadCons(a[0], a[1..] + y);
    } else {
      assert a + y == y;
    }
  }

  /** A name run in front is skipped by the name rule. */
  lemma {:induction false} NoAssignAheadSkip(a: Stream, y: Stream)
    requires forall i | 0 <= i < |a| :: IsVarChar(a[i])
    requires NoAssignAhead(a + y)
    ensures NoAssignAhead(y)
    decreases |a|
  {
    if |a| > 0 {
      assert (a + y)[0] == a[0];
      assert (a + y)[1..] == a[1..] + y;
      NoAssignAheadSkip(a[1..], y);
    } else {
      assert a + y == y;
    }
  }

  /** `parseAssign` fails where no assignment starts. */
  lemma NoAssignAheadFails(x: Stream)
    requires NoAssignAhead(x)
    ensures ParseAssign(x).Failure?
  {
    var v := ParseVar(x).value;
    NoAssignAheadSkip(v.left.name, v.right);
  }

  lemma NoAssignAheadN(n: N, y: Stream)
    requires NoAssignAhead(y)
    ensures NoAssignAhead(PrintN(n, y))
  {
    var afterInteger := if n.fraction.Some? then ['.'] + (DigitsOf(n.fraction.value) + y) else y;
    if n.fraction.Some? {
      NoAssignAheadConcat(DigitsOf(n.fraction.value), y);
      NoAssignAheadCons('.', DigitsOf(n.fraction.value) + y);
    }
    NoAssignAheadConcat(DigitsOf(n.integer), afterInteger);
    if n.negative {
      NoAssignAheadCons('-', DigitsOf(n.integer) + afterInteger);
    }
  }

  /** The text of a canonical `S`, `F` or `E` holds no `=`, so it starts no assignment. */
  lemma {:induction false} NoAssignAheadS(s: S, y: Stream)
    requires CanonicalS(s) && NoAssignAhead(y)
    ensures NoAssignAhead(PrintS(s, y))
    decreases s
  {
    match s
    case SNS(n, op, s') =>
      NoAssignAheadS(s', y);
      NoAssignAheadCons(op, PrintS(s', y));
      NoAssignAheadN(n, [op] + PrintS(s', y));
    case SFS(f, op, s') =>
      NoAssignAheadS(s', y);
      NoAssignAheadCons(op, PrintS(s', y));
      NoAssignAheadF(f, [op] + PrintS(s', y));
    case SF(f) =>
      NoAssignAheadF(f, y);
  }

  lemma {:induction false} NoAssignAheadF(f: F, y: Stream)
    requires CanonicalF(f) && NoAssignAhead(y)
    ensures NoAssignAhead(PrintF(f, y))
    decreases f
  {
    match f
    case FNF(n, op, f') =>
      NoAssignAheadF(f', y);
      NoAssignAheadCons(op, PrintF(f', y));
      NoAssignAheadN(n, [op] + PrintF(f', y));
    case FEF(e, op, f') =>
      NoAssignAheadF(f', y);
      NoAssignAheadCons(op, PrintF(f', y));
      NoAssignAheadE(e, [op] + PrintF(f', y));
    case FE(e) =>
      NoAssignAheadE(e, y);
  }

  lemma {:induction false} NoAssignAheadE(e: E, y: Stream)
    requires CanonicalE(e) && NoAssignAhead(y)
    ensures NoAssignAhead(PrintE(e, y))
    decreases e
  {
    match e
    case EParen(s) =>
      NoAssignAheadCons(')', y);
      NoAssignAheadS(s, [')'] + y);
      NoAssignAheadCons('(', PrintS(s, [')'] + y));
    case EN(n) =>
      NoAssignAheadN(n, y);
    case EVar(v) =>
      NoAssignAheadConcat(v.name, y);
  }

  /**
   * `parseExpression` reads a canonical expression and its `;` back,
   * whatever follows.
   */
  lemma RoundTripExpression(e: Expression, rest: Stream)
    requires CanonicalExpression(e)
    ensures ParseExpression(PrintExpression(e, rest)) == Success(Pair(e, rest))
  {
    match e
    case SExpr(s) => RoundTripTerm(s, rest);
    case AssignExpr(a) => RoundTripAssignment(a, rest);
  }

  lemma RoundTripTerm(s: S, rest: Stream)
    requires CanonicalS(s)
    ensures ParseExpression(PrintExpression(SExpr(s), rest)) == Success(Pair(SExpr(s), rest))
  {
    var x := PrintS(s, [';'] + rest);
    assert PrintExpression(SExpr(s), rest) == x;
    TermIsNoAssignment(s, rest);
    RoundTripS(s, [';'] + rest);
    ConsNext(';', rest);
  }

  lemma TermIsNoAssignment(s: S, rest: Stream)
    requires CanonicalS(s)
    ensures ParseAssign(PrintS(s, [';'] + rest)).Failure?
  {
    NoAssignAheadStop(';', rest);
    NoAssignAheadS(s, [';'] + rest);
    NoAssignAheadFails(PrintS(s, [';'] + rest));
  }

  lemma RoundTripAssignment(a: Assign, rest: Stream)
    requires IsName(a.v.name) && CanonicalS(a.s)
    ensures ParseExpression(PrintExpression(AssignExpr(a), rest)) == Success(Pair(AssignExpr(a), rest))
  {
    var body := PrintS(a.s, [';'] + rest);
    var x := a.v.name + (['='] + body);
    assert PrintExpression(AssignExpr(a), rest) == x;
    RoundTripVar(a.v, ['='] + body);
    ConsNext('=', body);
    RoundTripS(a.s, [';'] + rest);
    assert ParseAssign(x) == Success(Pair(a, [';'] + rest));
    ConsNext(';', rest);
  }

  /**
   * `parseProgram` reads a canonical program back when no expression starts
   * in what follows it.
   */
  lemma {:induction false} RoundTripProgram(p: Program, rest: Stream)
    requires CanonicalProgram(p) && ParseExpression(rest).Failure?
    ensures ParseProgram(PrintProgram(p, rest)) == Success(Pair(p, rest))
    decreases p
  {
    var x := PrintProgram(p, rest);
    ParseProgramStep(x);
    match p
    case Empty =>
    case Cons(e, p') =>
      RoundTripExpression(e, PrintProgram(p', rest));
      RoundTripProgram(p', rest);
  }

  /** The empty stream starts no expression. */
  lemma NothingParsesEmpty()
    ensures ParseExpression([]).Failure?
  {
    NoAssignAheadFails([]);
  }

  /**
   * `parse` inverts printing: the text of a canonical program, free of
   * quotes and blanks, is read back as that program.
   */
  lemma ParsePrintsBack(p: Program)
    requires CanonicalProgram(p) && Plain(Show(p))
    ensures Parse(Show(p)) == p
  {
    PlainTextIsClean(Show(p));
    NothingParsesEmpty();
    RoundTripProgram(p, []);
  }
}
