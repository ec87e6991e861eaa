/**
 * The converse of the round trip: every tree the parser of src/Parser.js
 * builds is canonical, except that it may hold the empty name (`E -> Var`
 * accepts an empty run, as for `;` alone). With the RoundTrip module this
 * makes the canonical trees, among those without an empty name, exactly
 * the trees the parser builds.
 */
module Canonicity {
  import opened Utils
  import opened Ast
  import opened Parser
  import opened Printer
  import RoundTrip

  /** No name in the tree is empty. */
  predicate NamedS(s: S) {
    match s
    case SNS(_, _, s') => NamedS(s')
    case SNF(_, _, f) => NamedF(f)
    case SFS(f, _, s') => NamedF(f) && NamedS(s')
    case SF(f) => NamedF(f)
  }

  predicate NamedF(f: F) {
    match f
    case FNF(_, _, f') => NamedF(f')
    case FNE(_, _, e) => NamedE(e)
    case FEF(e, _, f') => NamedE(e) && NamedF(f')
    case FE(e) => NamedE(e)
  }

  predicate NamedE(e: E) {
    match e
    case EParen(s) => NamedS(s)
    case EN(_) => true
    case EVar(v) => |v.name| > 0
  }

  /** The right-hand side of an assignment names no empty variable; its target may be empty. */
  predicate NamedExpression(e: Expression) {
    match e
    case SExpr(s) => NamedS(s)
    case AssignExpr(a) => NamedS(a.s)
  }

  predicate NamedProgram(p: Program) {
    match p
    case Empty => true
    case Cons(e, p') => NamedExpression(e) && NamedProgram(p')
  }

  /** Every number `parseN` builds is canonical: its runs are `null` or non-empty, and a bare run has bits. */
  lemma ParseNCanonical(x: Stream)
    ensures ParseN(x).Success? ==> CanonicalN(ParseN(x).value.left)
  {
    OrOfFour(PointNumber(x), NegativePointNumber(x, ParseFailure), NegativeNumber(x, ParseFailure),
             DigitsNumber(x, false), ParseFailure);
  }

  /** An `E` that is a number is exactly what `parseN` read there. */
  lemma NumberAtom(x: Stream)
    ensures ParseE(x).value.left.EN? ==>
              ParseN(x).Success? && ParseE(x).value == Pair(EN(ParseN(x).value.left), ParseN(x).value.right)
  {
    ParseEChoice(x);
  }

  /** An `F` that is a lone number is exactly what `parseN` read there. */
  lemma NumberTerm(x: Stream)
    ensures var f := ParseF(x).value.left;
            f.FE? && f.e.EN? ==> ParseN(x).Success? && ParseN(x).value.right == ParseF(x).value.right
  {
    ParseFChoice(x);
    NumberAtom(x);
  }

  lemma {:induction false} ParseSCanonical(x: Stream)
    ensures NamedS(ParseS(x).value.left) ==> CanonicalS(ParseS(x).value.left)
    decreases |x|, 2
  {
    ParseSChoice(x);
    var o := ParseOperator(ParseN(x), AdditiveOps);
    if o.Success? {
      OperatorSuffix(ParseN(x), AdditiveOps, x);
      ParseNCanonical(x);
      ParseSCanonical(o.value.rest);
    } else {
      var q := ParseOperator(ParseF(x), AdditiveOps);
      ParseFCanonical(x);
      NumberTerm(x);
      if q.Success? {
        OperatorSuffix(ParseF(x), AdditiveOps, x);
        ParseSCanonical(q.value.rest);
      }
    }
  }

  lemma {:induction false} ParseFCanonical(x: Stream)
    ensures NamedF(ParseF(x).value.left) ==> CanonicalF(ParseF(x).value.left)
    decreases |x|, 1
  {
    ParseFChoice(x);
    var o := ParseOperator(ParseN(x), MultiplicativeOps);
    if o.Success? {
      OperatorSuffix(ParseN(x), MultiplicativeOps, x);
      ParseNCanonical(x);
      ParseFCanonical(o.value.rest);
    } else {
      var q := ParseOperator(ParseE(x), MultiplicativeOps);
      ParseECanonical(x);
      NumberAtom(x);
      if q.Success? {
        OperatorSuffix(ParseE(x), MultiplicativeOps, x);
        ParseFCanonical(q.value.rest);
      }
    }
  }

  /** A name `parseE` builds never starts with `.`: a `.` starts a number, which is tried first. */
  lemma {:induction false} ParseECanonical(x: Stream)
    ensures NamedE(ParseE(x).value.left) ==> CanonicalE(ParseE(x).value.left)
    decreases |x|, 0
  {
    ParseEChoice(x);
    if ClosesParen(x) {
      PeekNext(x);
      ParseSCanonical(Next(x));
    } else if ParseN(x).Success? {
      ParseNCanonical(x);
    } else {
      var v := ParseVar(x).value;
      if |v.left.name| > 0 {
        assert v.left.name[0] == x[0];
      }
    }
  }

  lemma ParseExpressionCanonical(x: Stream)
    ensures var e := ParseExpression(x);
            e.Success? && NamedExpression(e.value.left) ==> CanonicalExpression(e.value.left)
  {
    if EndsWithSemicolon(ParseAssign(x)) {
      var v := ParseVar(x).value;
      ParseSCanonical(Next(v.right));
    } else {
      ParseSCanonical(x);
    }
  }

  lemma {:induction false} ParseProgramCanonical(x: Stream)
    ensures NamedProgram(ParseProgram(x).value.left) ==> CanonicalProgram(ParseProgram(x).value.left)
    decreases |x|
  {
    ParseProgramStep(x);
    var e := ParseExpression(x);
    if e.Success? {
      ParseExpressionCanonical(x);
      ParseProgramCanonical(e.value.right);
    }
  }

  /** Every program `parse` returns is canonical, unless an `S` in it holds the empty name. */
  lemma ParseIsCanonical(text: string)
    ensures NamedProgram(Parser.Parse(text)) ==> CanonicalProgram(Parser.Parse(text))
  {
    ParseProgramCanonical(Clean(text));
  }

  /**
   * Parsing the printed text of a parsed program gives the same program:
   * `parse` is idempotent through the printer, whenever the program holds
   * no empty name and its text no quote or blank.
   */
  lemma ReparseIsIdentity(text: string)
    requires NamedProgram(Parser.Parse(text)) && Plain(Show(Parser.Parse(text)))
    ensures Parser.Parse(Show(Parser.Parse(text))) == Parser.Parse(text)
  {
    ParseIsCanonical(text);
    RoundTrip.ParsePrintsBack(Parser.Parse(text));
  }
}
