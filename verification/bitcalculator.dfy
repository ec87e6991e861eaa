/**
 * The parser of BitCalculator.js, the earlier single-file version of the
 * calculator:
 *
 *   Program    -> Expression Program | epsilon
 *   Expression -> S ;
 *   S          -> N (+|-) S | N (+|-) F | F (+|-) S | F
 *   F          -> N (*|/) F | N (*|/) E | E (*|/) F | E
 *   E          -> ( S ) | N
 *   N          -> D . D | - D . D | - D | D
 *   D          -> 0 D | 1 D | epsilon
 *
 * It has no names and no assignment, and its last `N` alternative accepts an
 * empty run of bits, so `N`, and with it every rule up to `S`, never fails.
 * Its stream, comment filter, `or`, `parseD` and `parseBinary` are those of
 * src/Utils.js and src/Parser.js, and its evaluator is the one of
 * src/Calculator.js; those are shared with the later version here.
 */
module BitCalculator {
  import opened Utils
  import opened Ast
  import Parser
  import Calculator

  /** The number an empty input reads as: an integer part with a `null` run. */
  const EmptyNumber: N := N(D(None), None, false)

  /**
   * `parseN` of this version. Its second and third alternatives throw a
   * `ReferenceError` (their `throw` names a variable that is out of scope
   * there) instead of a parse error, which `or` catches all the same.
   * Wherever the later `parseN` succeeds the two agree; elsewhere this one
   * succeeds without consuming anything.
   */
  function ParseN(s: Stream): (r: Parsed<N>)
    ensures r.Success? && IsSuffix(r.value.right, s)
    ensures Parser.ParseN(s).Success? ==> r == Parser.ParseN(s)
    ensures Parser.ParseN(s).Failure? ==> r.value == Pair(EmptyNumber, s)
  {
    var point := Parser.PointNumber(s);
    var negativePoint := Parser.NegativePointNumber(s, ReferenceError);
    var negative := Parser.NegativeNumber(s, ReferenceError);
    var digits := Parser.DigitsNumber(s, true);
    OrOfFour(point, negativePoint, negative, digits, ParseFailure);
    OrOfFour(Parser.PointNumber(s), Parser.NegativePointNumber(s, ParseFailure),
             Parser.NegativeNumber(s, ParseFailure), Parser.DigitsNumber(s, false), ParseFailure);
    Or([point, negativePoint, negative, digits], ParseFailure)
  }

  /** `parseS` of this version: never fails; its trees mention no name. */
  function ParseS(s: Stream): (r: Parsed<S>)
    ensures r.Success? && IsSuffix(r.value.right, s)
    ensures VarFreeS(r.value.left)
    decreases |s|, 6
  {
    OrOfFour(ParseSNS(s), ParseSNF(s), ParseSFS(s), ParseSF(s), ParseFailure);
    Or([ParseSNS(s), ParseSNF(s), ParseSFS(s), ParseSF(s)], ParseFailure)
  }

  /** `S -> N (+|-) S`. */
  function ParseSNS(s: Stream): (r: Parsed<S>)
    ensures r.Success? ==> IsSuffix(r.value.right, s) && VarFreeS(r.value.left)
    decreases |s|, 5
  {
    Parser.OperatorSuffix(ParseN(s), Parser.AdditiveOps, s);
    var o :- Parser.ParseOperator(ParseN(s), Parser.AdditiveOps);
    var p := ParseS(o.rest).value;
    SuffixTransitive(p.right, o.rest, s);
    Success(Pair(SNS(o.tree, o.op, p.left), p.right))
  }

  /** `S -> N (+|-) F`. */
  function ParseSNF(s: Stream): (r: Parsed<S>)
    ensures r.Success? ==> IsSuffix(r.value.right, s) && VarFreeS(r.value.left)
    decreases |s|, 5
  {
    Parser.OperatorSuffix(ParseN(s), Parser.AdditiveOps, s);
    var o :- Parser.ParseOperator(ParseN(s), Parser.AdditiveOps);
    var p := ParseF(o.rest).value;
    SuffixTransitive(p.right, o.rest, s);
    Success(Pair(SNF(o.tree, o.op, p.left), p.right))
  }

  /** `S -> F (+|-) S`. */
  function ParseSFS(s: Stream): (r: Parsed<S>)
    ensures r.Success? ==> IsSuffix(r.value.right, s) && VarFreeS(r.value.left)
    decreases |s|, 5
  {
    Parser.OperatorSuffix(ParseF(s), Parser.AdditiveOps, s);
    var o :- Parser.ParseOperator(ParseF(s), Parser.AdditiveOps);
    var p := ParseS(o.rest).value;
    SuffixTransitive(p.right, o.rest, s);
    Success(Pair(SFS(o.tree, o.op, p.left), p.right))
  }

  /** `S -> F`. */
  function ParseSF(s: Stream): (r: Parsed<S>)
    ensures r.Success? && IsSuffix(r.value.right, s) && VarFreeS(r.value.left)
    decreases |s|, 5
  {
    var p := ParseF(s).value;
    Success(Pair(SF(p.left), p.right))
  }

  /** `parseF` of this version: never fails; its trees mention no name. */
  function ParseF(s: Stream): (r: Parsed<F>)
    ensures r.Success? && IsSuffix(r.value.right, s)
    ensures VarFreeF(r.value.left)
    decreases |s|, 4
  {
    OrOfFour(ParseFNF(s), ParseFNE(s), ParseFEF(s), ParseFE(s), ParseFailure);
    Or([ParseFNF(s), ParseFNE(s), ParseFEF(s), ParseFE(s)], ParseFailure)
  }

  /** `F -> N (*|/) F`. */
  function ParseFNF(s: Stream): (r: Parsed<F>)
    ensures r.Success? ==> IsSuffix(r.value.right, s) && VarFreeF(r.value.left)
    decreases |s|, 3
  {
    Parser.OperatorSuffix(ParseN(s), Parser.MultiplicativeOps, s);
    var o :- Parser.ParseOperator(ParseN(s), Parser.MultiplicativeOps);
    var p := ParseF(o.rest).value;
    SuffixTransitive(p.right, o.rest, s);
    Success(Pair(FNF(o.tree, o.op, p.left), p.right))
  }

  /** `F -> N (*|/) E`. */
  function ParseFNE(s: Stream): (r: Parsed<F>)
    ensures r.Success? ==> IsSuffix(r.value.right, s) && VarFreeF(r.value.left)
    decreases |s|, 3
  {
    Parser.OperatorSuffix(ParseN(s), Parser.MultiplicativeOps, s);
    var o :- Parser.ParseOperator(ParseN(s), Parser.MultiplicativeOps);
    var p := ParseE(o.rest).value;
    SuffixTransitive(p.right, o.rest, s);
    Success(Pair(FNE(o.tree, o.op, p.left), p.right))
  }

  /** `F -> E (*|/) F`. */
  function ParseFEF(s: Stream): (r: Parsed<F>)
    ensures r.Success? ==> IsSuffix(r.value.right, s) && VarFreeF(r.value.left)
    decreases |s|, 3
  {
    Parser.OperatorSuffix(ParseE(s), Parser.MultiplicativeOps, s);
    var o :- Parser.ParseOperator(ParseE(s), Parser.MultiplicativeOps);
    var p := ParseF(o.rest).value;
    SuffixTransitive(p.right, o.rest, s);
    Success(Pair(FEF(o.tree, o.op, p.left), p.right))
  }

  /** `F -> E`. */
  function ParseFE(s: Stream): (r: Parsed<F>)
    ensures r.Success? && IsSuffix(r.value.right, s) && VarFreeF(r.value.left)
    decreases |s|, 3
  {
    var p := ParseE(s).value;
    Success(Pair(FE(p.left), p.right))
  }

  /** `parseE` of this version: a parenthesised `S` or a number, which never fails. */
  function ParseE(s: Stream): (r: Parsed<E>)
    ensures r.Success? && IsSuffix(r.value.right, s)
    ensures VarFreeE(r.value.left)
    decreases |s|, 2
  {
    OrOfTwo(ParseEParen(s), ParseEN(s), ParseFailure);
    Or([ParseEParen(s), ParseEN(s)], ParseFailure)
  }

  /**
   * `E -> ( S )`. Its failure is again a `ReferenceError`: the `throw`
   * names the `nextStream` declared inside the `if`.
   */
  function ParseEParen(s: Stream): (r: Parsed<E>)
    ensures r.Success? ==> IsSuffix(r.value.right, s) && VarFreeE(r.value.left)
    ensures r.Failure? ==> r.error == ReferenceError
    decreases |s|, 1
  {
    if Peek(s) == Some('(') then
      var p := ParseS(Next(s)).value;
      SuffixTransitive(p.right, Next(s), s);
      if Peek(p.right) == Some(')') then
        SuffixTransitive(Next(p.right), p.right, s);
        Success(Pair(EParen(p.left), Next(p.right)))
      else Failure(ReferenceError)
    else Failure(ReferenceError)
  }

  /** `E -> N`: never fails. */
  function ParseEN(s: Stream): (r: Parsed<E>)
    ensures r.Success? && IsSuffix(r.value.right, s) && VarFreeE(r.value.left)
  {
    var p := ParseN(s).value;
    Success(Pair(EN(p.left), p.right))
  }

  /**
   * How `parseS` of this version chooses; as in the later version, `N op S`
   * wins whenever a number is followed by an additive operator, and
   * `N op F` is never chosen.
   */
  lemma ParseSChoice(s: Stream)
    ensures var o := Parser.ParseOperator(ParseN(s), Parser.AdditiveOps);
            o.Success? ==>
              var p := ParseS(o.value.rest).value;
              ParseS(s).value == Pair(SNS(o.value.tree, o.value.op, p.left), p.right)
    ensures var o := Parser.ParseOperator(ParseF(s), Parser.AdditiveOps);
            Parser.ParseOperator(ParseN(s), Parser.AdditiveOps).Failure? && o.Success? ==>
              var p := ParseS(o.value.rest).value;
              ParseS(s).value == Pair(SFS(o.value.tree, o.value.op, p.left), p.right)
    ensures Parser.ParseOperator(ParseN(s), Parser.AdditiveOps).Failure? &&
            Parser.ParseOperator(ParseF(s), Parser.AdditiveOps).Failure? ==>
              ParseS(s).value == Pair(SF(ParseF(s).value.left), ParseF(s).value.right)
    ensures !ParseS(s).value.left.SNF?
  {
    OrOfFour(ParseSNS(s), ParseSNF(s), ParseSFS(s), ParseSF(s), ParseFailure);
  }

  /** How `parseF` of this version chooses; `N op E` is never chosen. */
  lemma ParseFChoice(s: Stream)
    ensures var o := Parser.ParseOperator(ParseN(s), Parser.MultiplicativeOps);
            o.Success? ==>
              var p := ParseF(o.value.rest).value;
              ParseF(s).value == Pair(FNF(o.value.tree, o.value.op, p.left), p.right)
    ensures var o := Parser.ParseOperator(ParseE(s), Parser.MultiplicativeOps);
            Parser.ParseOperator(ParseN(s), Parser.MultiplicativeOps).Failure? && o.Success? ==>
              var p := ParseF(o.value.rest).value;
              ParseF(s).value == Pair(FEF(o.value.tree, o.value.op, p.left), p.right)
    ensures Parser.ParseOperator(ParseN(s), Parser.MultiplicativeOps).Failure? &&
            Parser.ParseOperator(ParseE(s), Parser.MultiplicativeOps).Failure? ==>
              ParseF(s).value == Pair(FE(ParseE(s).value.left), ParseE(s).value.right)
    ensures !ParseF(s).value.left.FNE?
  {
    OrOfFour(ParseFNF(s), ParseFNE(s), ParseFEF(s), ParseFE(s), ParseFailure);
  }

  /** How `parseE` of this version chooses: the parenthesised `S`, else a number. */
  lemma ParseEChoice(s: Stream)
    ensures var p := ParseS(Next(s)).value;
            Peek(s) == Some('(') && Peek(p.right) == Some(')') ==>
              ParseE(s).value == Pair(EParen(p.left), Next(p.right))
    ensures var p := ParseS(Next(s)).value;
            !(Peek(s) == Some('(') && Peek(p.right) == Some(')')) ==>
              ParseE(s).value == Pair(EN(ParseN(s).value.left), ParseN(s).value.right)
  {
    OrOfTwo(ParseEParen(s), ParseEN(s), ParseFailure);
  }

  /** `parseExpression` of this version: an `S` followed by a `;` that is consumed. */
  function ParseExpression(s: Stream): (r: Parsed<Expression>)
    ensures r.Success? <==> Parser.EndsWithSemicolon(ParseS(s))
    ensures r.Success? ==>
              r.value == Pair(SExpr(ParseS(s).value.left), ParseS(s).value.right[1..]) &&
              IsSuffix(r.value.right, s) && |r.value.right| < |s| && s[|s| - |r.value.right| - 1] == ';'
  {
    var p := ParseS(s).value;
    if Peek(p.right) == Some(';') then
      SuffixTransitive(Next(p.right), p.right, s);
      Success(Pair(SExpr(p.left), Next(p.right)))
    else Failure(ParseFailure)
  }

  /**
   * `parseProgram` of this version: never fails, stops exactly where no
   * expression parses, and builds a program of name-free `S` expressions.
   */
  function ParseProgram(s: Stream): (r: Parsed<Program>)
    ensures r.Success? && IsSuffix(r.value.right, s)
    ensures ParseExpression(r.value.right).Failure?
    ensures r.value.left.Empty? <==> ParseExpression(s).Failure?
    ensures VarFreeProgram(r.value.left)
    decreases |s|
  {
    var more := (
      var e :- ParseExpression(s);
      var p := ParseProgram(e.right).value;
      SuffixTransitive(p.right, e.right, s);
      Success(Pair(Cons(e.left, p.left), p.right)));
    var done := Success(Pair(Empty, s));
    OrOfTwo(more, done, ParseFailure);
    Or([more, done], ParseFailure)
  }

  /** `parse(string)` of this version, on the same cleaned text. */
  function Parse(text: string): (p: Program)
    ensures p.Empty? <==> ParseExpression(Parser.Clean(text)).Failure?
    ensures p.Cons? ==> p.expression == ParseExpression(Parser.Clean(text)).value.left
    ensures VarFreeProgram(p)
  {
    ParseProgram(Parser.Clean(text)).value.left
  }

  /** A name-free program consists of `S` expressions only. */
  lemma {:induction false} VarFreeProgramHasNoAssign(p: Program)
    requires VarFreeProgram(p)
    ensures forall i | 0 <= i < |Expressions(p)| :: Expressions(p)[i].SExpr?
  {
    match p
    case Empty =>
    case Cons(e, rest) =>
      VarFreeProgramHasNoAssign(rest);
      assert forall i | 1 <= i < |Expressions(p)| :: Expressions(p)[i] == Expressions(rest)[i - 1];
  }

  /**
   * Every text this version parses evaluates without throwing: there is no
   * assignment for `exeExpression` to trip over.
   */
  lemma ExecuteNeverThrows(text: string, show: Calculator.Number -> string)
    ensures Calculator.Execute(Parse(text), show).Some?
  {
    VarFreeProgramHasNoAssign(Parse(text));
  }
}
