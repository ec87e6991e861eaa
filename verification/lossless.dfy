/**
 * The parser of src/Parser.js neither invents, drops nor reorders a symbol:
 * printing the tree a rule builds in front of the stream it leaves gives back
 * exactly the stream the rule was given. Together with the suffix property of
 * every rule, this says the consumed prefix is the tree's own text.
 */
module Lossless {
  import opened Utils
  import opened Ast
  import opened Parser
  import opened Printer

  lemma PointLossless(x: Stream)
    ensures PointNumber(x).Success? ==> x == PrintN(PointNumber(x).value.left, PointNumber(x).value.right)
  {
    if PointNumber(x).Success? {
      var p1 := ParseD(x).value;
      var p2 := ParseD(Next(p1.right)).value;
      PeekNext(p1.right);
      assert PointNumber(x).value == Pair(N(p1.left, Some(p2.left), false), p2.right);
    }
  }

  lemma NegativePointLossless(x: Stream)
    ensures var r := NegativePointNumber(x, ParseFailure);
            r.Success? ==> x == PrintN(r.value.left, r.value.right)
  {
    var r := NegativePointNumber(x, ParseFailure);
    if r.Success? {
      var p1 := ParseD(Next(x)).value;
      var p2 := ParseD(Next(p1.right)).value;
      PeekNext(x);
      PeekNext(p1.right);
      assert r.value == Pair(N(p1.left, Some(p2.left), true), p2.right);
    }
  }

  lemma NegativeLossless(x: Stream)
    ensures var r := NegativeNumber(x, ParseFailure);
            r.Success? ==> x == PrintN(r.value.left, r.value.right)
  {
    var r := NegativeNumber(x, ParseFailure);
    if r.Success? {
      var p := ParseD(Next(x)).value;
      assert r.value == Pair(N(p.left, None, true), p.right);
      PrintNegative(x, p.left, p.right);
    }
  }

  lemma PrintNegative(x: Stream, d: D, r: Stream)
    requires |x| > 0 && x[0] == '-' && Next(x) == DigitsOf(d) + r
    ensures x == PrintN(N(d, None, true), r)
  {
    PeekNext(x);
  }

  lemma DigitsLossless(x: Stream, allowEmpty: bool)
    ensures var r := DigitsNumber(x, allowEmpty);
            r.Success? ==> x == PrintN(r.value.left, r.value.right)
  {
  }

  lemma NumberLossless(x: Stream)
    ensures ParseN(x).Success? ==> x == PrintN(ParseN(x).value.left, ParseN(x).value.right)
  {
    OrOfFour(PointNumber(x), NegativePointNumber(x, ParseFailure),
             NegativeNumber(x, ParseFailure), DigitsNumber(x, false), ParseFailure);
    PointLossless(x);
    NegativePointLossless(x);
    NegativeLossless(x);
    DigitsLossless(x, false);
  }

  lemma {:induction false} SLossless(x: Stream)
    ensures x == PrintS(ParseS(x).value.left, ParseS(x).value.right)
    decreases |x|, 6
  {
    OrOfFour(ParseSNS(x), ParseSNF(x), ParseSFS(x), ParseSF(x), ParseFailure);
    SNSLossless(x);
    SNFLossless(x);
    SFSLossless(x);
    SFLossless(x);
  }

  lemma {:induction false} SNSLossless(x: Stream)
    ensures ParseSNS(x).Success? ==> x == PrintS(ParseSNS(x).value.left, ParseSNS(x).value.right)
    decreases |x|, 5
  {
    if ParseSNS(x).Success? {
      OperatorSuffix(ParseN(x), AdditiveOps, x);
      var l := ParseN(x).value;
      var o := ParseOperator(ParseN(x), AdditiveOps).value;
      var p := ParseS(o.rest).value;
      assert ParseSNS(x).value == Pair(SNS(o.tree, o.op, p.left), p.right);
      NumberLossless(x);
      SLossless(o.rest);
      PrintSNS(x, l.left, l.right, o.op, o.rest, p.left, p.right);
    }
  }

  lemma {:induction false} SNFLossless(x: Stream)
    ensures ParseSNF(x).Success? ==> x == PrintS(ParseSNF(x).value.left, ParseSNF(x).value.right)
    decreases |x|, 5
  {
    if ParseSNF(x).Success? {
      OperatorSuffix(ParseN(x), AdditiveOps, x);
      var l := ParseN(x).value;
      var o := ParseOperator(ParseN(x), AdditiveOps).value;
      var p := ParseF(o.rest).value;
      assert ParseSNF(x).value == Pair(SNF(o.tree, o.op, p.left), p.right);
      NumberLossless(x);
      FLossless(o.rest);
      PrintSNF(x, l.left, l.right, o.op, o.rest, p.left, p.right);
    }
  }

  lemma {:induction false} SFSLossless(x: Stream)
    ensures ParseSFS(x).Success? ==> x == PrintS(ParseSFS(x).value.left, ParseSFS(x).value.right)
    decreases |x|, 5
  {
    if ParseSFS(x).Success? {
      OperatorSuffix(ParseF(x), AdditiveOps, x);
      var l := ParseF(x).value;
      var o := ParseOperator(ParseF(x), AdditiveOps).value;
      var p := ParseS(o.rest).value;
      assert ParseSFS(x).value == Pair(SFS(o.tree, o.op, p.left), p.right);
      FLossless(x);
      SLossless(o.rest);
      PrintSFS(x, l.left, l.right, o.op, o.rest, p.left, p.right);
    }
  }

  lemma {:induction false} SFLossless(x: Stream)
    ensures x == PrintS(ParseSF(x).value.left, ParseSF(x).value.right)
    decreases |x|, 5
  {
    var p := ParseF(x).value;
    assert ParseSF(x).value == Pair(SF(p.left), p.right);
    FLossless(x);
    PrintSF(x, p.left, p.right);
  }

  /** Printing glue for the nodes with one child, kept apart from the parser's definitions. */
  lemma PrintSF(x: Stream, f: F, r: Stream)
    requires x == PrintF(f, r)
    ensures x == PrintS(SF(f), r)
  {
  }

  lemma PrintFE(x: Stream, e: E, r: Stream)
    requires x == PrintE(e, r)
    ensures x == PrintF(FE(e), r)
  {
  }

  lemma PrintEN(x: Stream, n: N, r: Stream)
    requires x == PrintN(n, r)
    ensures x == PrintE(EN(n), r)
  {
  }

  lemma PrintEVar(x: Stream, v: Var, r: Stream)
    requires x == v.name + r
    ensures x == PrintE(EVar(v), r)
  {
  }

  /** Printing glue for the binary nodes, kept apart from the parser's definitions. */
  lemma PrintSNS(x: Stream, a: N, ar: Stream, op: char, rest: Stream, b: S, br: Stream)
    requires x == PrintN(a, ar) && ar == [op] + rest && rest == PrintS(b, br)
    ensures x == PrintS(SNS(a, op, b), br)
  {
  }

  lemma PrintSNF(x: Stream, a: N, ar: Stream, op: char, rest: Stream, b: F, br: Stream)
    requires x == PrintN(a, ar) && ar == [op] + rest && rest == PrintF(b, br)
    ensures x == PrintS(SNF(a, op, b), br)
  {
  }

  lemma PrintSFS(x: Stream, a: F, ar: Stream, op: char, rest: Stream, b: S, br: Stream)
    requires x == PrintF(a, ar) && ar == [op] + rest && rest == PrintS(b, br)
    ensures x == PrintS(SFS(a, op, b), br)
  {
  }

  lemma PrintFNF(x: Stream, a: N, ar: Stream, op: char, rest: Stream, b: F, br: Stream)
    requires x == PrintN(a, ar) && ar == [op] + rest && rest == PrintF(b, br)
    ensures x == PrintF(FNF(a, op, b), br)
  {
  }

  lemma PrintFNE(x: Stream, a: N, ar: Stream, op: char, rest: Stream, b: E, br: Stream)
    requires x == PrintN(a, ar) && ar == [op] + rest && rest == PrintE(b, br)
    ensures x == PrintF(FNE(a, op, b), br)
  {
  }

  lemma PrintFEF(x: Stream, a: E, ar: Stream, op: char, rest: Stream, b: F, br: Stream)
    requires x == PrintE(a, ar) && ar == [op] + rest && rest == PrintF(b, br)
    ensures x == PrintF(FEF(a, op, b), br)
  {
  }

  lemma {:induction false} FLossless(x: Stream)
    ensures x == PrintF(ParseF(x).value.left, ParseF(x).value.right)
    decreases |x|, 4
  {
    OrOfFour(ParseFNF(x), ParseFNE(x), ParseFEF(x), ParseFE(x), ParseFailure);
    FNFLossless(x);
    FNELossless(x);
    FEFLossless(x);
    FELossless(x);
  }

  lemma {:induction false} FNFLossless(x: Stream)
    ensures ParseFNF(x).Success? ==> x == PrintF(ParseFNF(x).value.left, ParseFNF(x).value.right)
    decreases |x|, 3
  {
    if ParseFNF(x).Success? {
      OperatorSuffix(ParseN(x), MultiplicativeOps, x);
      var l := ParseN(x).value;
      var o := ParseOperator(ParseN(x), MultiplicativeOps).value;
      var p := ParseF(o.rest).value;
      assert ParseFNF(x).value == Pair(FNF(o.tree, o.op, p.left), p.right);
      NumberLossless(x);
      FLossless(o.rest);
      PrintFNF(x, l.left, l.right, o.op, o.rest, p.left, p.right);
    }
  }

  lemma {:induction false} FNELossless(x: Stream)
    ensures ParseFNE(x).Success? ==> x == PrintF(ParseFNE(x).value.left, ParseFNE(x).value.right)
    decreases |x|, 3
  {
    if ParseFNE(x).Success? {
      OperatorSuffix(ParseN(x), MultiplicativeOps, x);
      var l := ParseN(x).value;
      var o := ParseOperator(ParseN(x), MultiplicativeOps).value;
      var p := ParseE(o.rest).value;
      assert ParseFNE(x).value == Pair(FNE(o.tree, o.op, p.left), p.right);
      NumberLossless(x);
      ELossless(o.rest);
      PrintFNE(x, l.left, l.right, o.op, o.rest, p.left, p.right);
    }
  }

  lemma {:induction false} FEFLossless(x: Stream)
    ensures ParseFEF(x).Success? ==> x == PrintF(ParseFEF(x).value.left, ParseFEF(x).value.right)
    decreases |x|, 3
  {
    if ParseFEF(x).Success? {
      OperatorSuffix(ParseE(x), MultiplicativeOps, x);
      var l := ParseE(x).value;
      var o := ParseOperator(ParseE(x), MultiplicativeOps).value;
      var p := ParseF(o.rest).value;
      assert ParseFEF(x).value == Pair(FEF(o.tree, o.op, p.left), p.right);
      ELossless(x);
      FLossless(o.rest);
      PrintFEF(x, l.left, l.right, o.op, o.rest, p.left, p.right);
    }
  }

  lemma {:induction false} FELossless(x: Stream)
    ensures x == PrintF(ParseFE(x).value.left, ParseFE(x).value.right)
    decreases |x|, 3
  {
    var p := ParseE(x).value;
    assert ParseFE(x).value == Pair(FE(p.left), p.right);
    ELossless(x);
    PrintFE(x, p.left, p.right);
  }

  lemma {:induction false} ELossless(x: Stream)
    ensures x == PrintE(ParseE(x).value.left, ParseE(x).value.right)
    decreases |x|, 2
  {
    OrOfThree(ParseEParen(x), ParseEN(x), ParseEVar(x), ParseFailure);
    if ParseEParen(x).Success? {
      EParenLossless(x);
    } else if ParseN(x).Success? {
      var p := ParseN(x).value;
      assert ParseE(x).value == Pair(EN(p.left), p.right);
      NumberLossless(x);
      PrintEN(x, p.left, p.right);
    } else {
      var v := ParseVar(x).value;
      assert ParseE(x).value == Pair(EVar(v.left), v.right);
      PrintEVar(x, v.left, v.right);
    }
  }

  lemma {:induction false} EParenLossless(x: Stream)
    ensures ParseEParen(x).Success? ==> x == PrintE(ParseEParen(x).value.left, ParseEParen(x).value.right)
    decreases |x|, 1
  {
    if ParseEParen(x).Success? {
      var p := ParseS(Next(x)).value;
      assert ParseEParen(x).value == Pair(EParen(p.left), Next(p.right));
      SLossless(Next(x));
      PrintParen(x, p.left, p.right);
    }
  }

  /** Printing glue for `( S )`, kept apart from the parser's definitions. */
  lemma PrintParen(x: Stream, s: S, r: Stream)
    requires |x| > 0 && x[0] == '(' && Next(x) == PrintS(s, r)
    requires |r| > 0 && r[0] == ')'
    ensures x == PrintE(EParen(s), Next(r))
  {
    PeekNext(x);
    PeekNext(r);
  }

  /** `parseAssign` reads a name, `=` and an `S`, and nothing else. */
  lemma AssignLossless(x: Stream)
    ensures var r := ParseAssign(x);
            r.Success? ==> x == r.value.left.v.name + (['='] + PrintS(r.value.left.s, r.value.right))
  {
    var r := ParseAssign(x);
    if r.Success? {
      var v := ParseVar(x).value;
      var p := ParseS(Next(v.right)).value;
      assert r.value == Pair(Assign(v.left, p.left), p.right);
      SLossless(Next(v.right));
      PeekNext(v.right);
    }
  }

  lemma ExpressionLossless(x: Stream)
    ensures ParseExpression(x).Success? ==>
              x == PrintExpression(ParseExpression(x).value.left, ParseExpression(x).value.right)
  {
    if EndsWithSemicolon(ParseAssign(x)) {
      var a := ParseAssign(x).value;
      AssignLossless(x);
      PrintAssignment(x, a.left, a.right);
    } else if ParseExpression(x).Success? {
      var p := ParseS(x).value;
      SLossless(x);
      PrintTerm(x, p.left, p.right);
    }
  }

  /** Printing glue for the two expression forms and their `;`. */
  lemma PrintAssignment(x: Stream, a: Assign, r: Stream)
    requires x == a.v.name + (['='] + PrintS(a.s, r)) && |r| > 0 && r[0] == ';'
    ensures x == PrintExpression(AssignExpr(a), r[1..])
  {
    PeekNext(r);
  }

  lemma PrintTerm(x: Stream, s: S, r: Stream)
    requires x == PrintS(s, r) && |r| > 0 && r[0] == ';'
    ensures x == PrintExpression(SExpr(s), r[1..])
  {
    PeekNext(r);
  }

  /** `parseProgram` reads a prefix of its input and leaves the rest, where no expression parses. */
  lemma {:induction false} ProgramLossless(x: Stream)
    ensures x == PrintProgram(ParseProgram(x).value.left, ParseProgram(x).value.right)
    decreases |x|
  {
    ParseProgramStep(x);
    if ParseExpression(x).Success? {
      var e := ParseExpression(x).value;
      ExpressionLossless(x);
      ProgramLossless(e.right);
    }
  }

  /**
   * `parse(string)`: the cleaned text is the program's own text followed by
   * a rest where no expression starts, which is dropped.
   */
  lemma ParseDropsOnlyTrailer(text: string)
    ensures var rest := ParseProgram(Clean(text)).value.right;
            Clean(text) == PrintProgram(Parse(text), rest) && ParseExpression(rest).Failure? &&
            IsSuffix(rest, Clean(text))
  {
    ProgramLossless(Clean(text));
  }
}
