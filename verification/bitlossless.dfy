/**
 * The parser of BitCalculator.js is lossless in the same way as the later
 * one: printing the tree a rule builds in front of the stream it leaves
 * gives back the stream the rule was given. Its `N` may consume nothing,
 * and the empty number prints as nothing.
 */
module BitLossless {
  import opened Utils
  import opened Ast
  import Parser
  import opened Printer
  import Lossless
  import opened BitCalculator

  /** The empty number has no text. */
  lemma EmptyNumberPrintsNothing(rest: Stream)
    ensures PrintN(EmptyNumber, rest) == rest
  {
  }

  lemma NumberLossless(x: Stream)
    ensures x == PrintN(ParseN(x).value.left, ParseN(x).value.right)
  {
    if Parser.ParseN(x).Success? {
      Lossless.NumberLossless(x);
    } else {
      EmptyNumberPrintsNothing(x);
    }
  }

  lemma {:induction false} SLossless(x: Stream)
    ensures x == PrintS(ParseS(x).value.left, ParseS(x).value.right)
    decreases |x|, 6
  {
    OrOfFour(ParseSNS(x), ParseSNF(x), ParseSFS(x), ParseSF(x), ParseFailure);
    SNSLossless(x);
    SNFLossless(x);
    SFSLossless(x);
    SFLossless(x);
  }

  lemma {:induction false} SNSLossless(x: Stream)
    ensures ParseSNS(x).Success? ==> x == PrintS(ParseSNS(x).value.left, ParseSNS(x).value.right)
    decreases |x|, 5
  {
    if ParseSNS(x).Success? {
      Parser.OperatorSuffix(ParseN(x), Parser.AdditiveOps, x);
      var l := ParseN(x).value;
      var o := Parser.ParseOperator(ParseN(x), Parser.AdditiveOps).value;
      var p := ParseS(o.rest).value;
      assert ParseSNS(x).value == Pair(SNS(o.tree, o.op, p.left), p.right);
      NumberLossless(x);
      SLossless(o.rest);
      Lossless.PrintSNS(x, l.left, l.right, o.op, o.rest, p.left, p.right);
    }
  }

  lemma {:induction false} SNFLossless(x: Stream)
    ensures ParseSNF(x).Success? ==> x == PrintS(ParseSNF(x).value.left, ParseSNF(x).value.right)
    decreases |x|, 5
  {
    if ParseSNF(x).Success? {
      Parser.OperatorSuffix(ParseN(x), Parser.AdditiveOps, x);
      var l := ParseN(x).value;
      var o := Parser.ParseOperator(ParseN(x), Parser.AdditiveOps).value;
      var p := ParseF(o.rest).value;
      assert ParseSNF(x).value == Pair(SNF(o.tree, o.op, p.left), p.right);
      NumberLossless(x);
      FLossless(o.rest);
      Lossless.PrintSNF(x, l.left, l.right, o.op, o.rest, p.left, p.right);
    }
  }

  lemma {:induction false} SFSLossless(x: Stream)
    ensures ParseSFS(x).Success? ==> x == PrintS(ParseSFS(x).value.left, ParseSFS(x).value.right)
    decreases |x|, 5
  {
    if ParseSFS(x).Success? {
      Parser.OperatorSuffix(ParseF(x), Parser.AdditiveOps, x);
      var l := ParseF(x).value;
      var o := Parser.ParseOperator(ParseF(x), Parser.AdditiveOps).value;
      var p := ParseS(o.rest).value;
      assert ParseSFS(x).value == Pair(SFS(o.tree, o.op, p.left), p.right);
      FLossless(x);
      SLossless(o.rest);
      Lossless.PrintSFS(x, l.left, l.right, o.op, o.rest, p.left, p.right);
    }
  }

  lemma {:induction false} SFLossless(x: Stream)
    ensures x == PrintS(ParseSF(x).value.left, ParseSF(x).value.right)
    decreases |x|, 5
  {
    var p := ParseF(x).value;
    assert ParseSF(x).value == Pair(SF(p.left), p.right);
    FLossless(x);
    Lossless.PrintSF(x, p.left, p.right);
  }

  lemma {:induction false} FLossless(x: Stream)
    ensures x == PrintF(ParseF(x).value.left, ParseF(x).value.right)
    decreases |x|, 4
  {
    OrOfFour(ParseFNF(x), ParseFNE(x), ParseFEF(x), ParseFE(x), ParseFailure);
    FNFLossless(x);
    FNELossless(x);
    FEFLossless(x);
    FELossless(x);
  }

  lemma {:induction false} FNFLossless(x: Stream)
    ensures ParseFNF(x).Success? ==> x == PrintF(ParseFNF(x).value.left, ParseFNF(x).value.right)
    decreases |x|, 3
  {
    if ParseFNF(x).Success? {
      Parser.OperatorSuffix(ParseN(x), Parser.MultiplicativeOps, x);
      var l := ParseN(x).value;
      var o := Parser.ParseOperator(ParseN(x), Parser.MultiplicativeOps).value;
      var p := ParseF(o.rest).value;
      assert ParseFNF(x).value == Pair(FNF(o.tree, o.op, p.left), p.right);
      NumberLossless(x);
      FLossless(o.rest);
      Lossless.PrintFNF(x, l.left, l.right, o.op, o.rest, p.left, p.right);
    }
  }

  lemma {:induction false} FNELossless(x: Stream)
    ensures ParseFNE(x).Success? ==> x == PrintF(ParseFNE(x).value.left, ParseFNE(x).value.right)
    decreases |x|, 3
  {
    if ParseFNE(x).Success? {
      Parser.OperatorSuffix(ParseN(x), Parser.MultiplicativeOps, x);
      var l := ParseN(x).value;
      var o := Parser.ParseOperator(ParseN(x), Parser.MultiplicativeOps).value;
      var p := ParseE(o.rest).value;
      assert ParseFNE(x).value == Pair(FNE(o.tree, o.op, p.left), p.right);
      NumberLossless(x);
      ELossless(o.rest);
      Lossless.PrintFNE(x, l.left, l.right, o.op, o.rest, p.left, p.right);
    }
  }

  lemma {:induction false} FEFLossless(x: Stream)
    ensures ParseFEF(x).Success? ==> x == PrintF(ParseFEF(x).value.left, ParseFEF(x).value.right)
    decreases |x|, 3
  {
    if ParseFEF(x).Success? {
      Parser.OperatorSuffix(ParseE(x), Parser.MultiplicativeOps, x);
      var l := ParseE(x).value;
      var o := Parser.ParseOperator(ParseE(x), Parser.MultiplicativeOps).value;
      var p := ParseF(o.rest).value;
      assert ParseFEF(x).value == Pair(FEF(o.tree, o.op, p.left), p.right);
      ELossless(x);
      FLossless(o.rest);
      Lossless.PrintFEF(x, l.left, l.right, o.op, o.rest, p.left, p.right);
    }
  }

  lemma {:induction false} FELossless(x: Stream)
    ensures x == PrintF(ParseFE(x).value.left, ParseFE(x).value.right)
    decreases |x|, 3
  {
    var p := ParseE(x).value;
    assert ParseFE(x).value == Pair(FE(p.left), p.right);
    ELossless(x);
    Lossless.PrintFE(x, p.left, p.right);
  }

  lemma {:induction false} ELossless(x: Stream)
    ensures x == PrintE(ParseE(x).value.left, ParseE(x).value.right)
    decreases |x|, 2
  {
    OrOfTwo(ParseEParen(x), ParseEN(x), ParseFailure);
    if ParseEParen(x).Success? {
      EParenLossless(x);
    } else {
      var p := ParseN(x).value;
      assert ParseE(x).value == Pair(EN(p.left), p.right);
      NumberLossless(x);
      Lossless.PrintEN(x, p.left, p.right);
    }
  }

  lemma {:induction false} EParenLossless(x: Stream)
    ensures ParseEParen(x).Success? ==> x == PrintE(ParseEParen(x).value.left, ParseEParen(x).value.right)
    decreases |x|, 1
  {
    if ParseEParen(x).Success? {
      var p := ParseS(Next(x)).value;
      assert ParseEParen(x).value == Pair(EParen(p.left), Next(p.right));
      SLossless(Next(x));
      Lossless.PrintParen(x, p.left, p.right);
    }
  }

  lemma ExpressionLossless(x: Stream)
    ensures ParseExpression(x).Success? ==>
              x == PrintExpression(ParseExpression(x).value.left, ParseExpression(x).value.right)
  {
    if ParseExpression(x).Success? {
      var p := ParseS(x).value;
      SLossless(x);
      Lossless.PrintTerm(x, p.left, p.right);
    }
  }

  /** `parseProgram` of this version reads a prefix of its input and leaves the rest. */
  lemma {:induction false} ProgramLossless(x: Stream)
    ensures x == PrintProgram(ParseProgram(x).value.left, ParseProgram(x).value.right)
    decreases |x|
  {
    var more := (
      var e :- ParseExpression(x);
      var p := ParseProgram(e.right).value;
      Success(Pair(Cons(e.left, p.left), p.right)));
    OrOfTwo(more, Success(Pair(Empty, x)), ParseFailure);
    if ParseExpression(x).Success? {
      var e := ParseExpression(x).value;
      ExpressionLossless(x);
      ProgramLossless(e.right);
    }
  }

  /**
   * `parse(string)` of this version: the cleaned text is the program's own
   * text followed by a rest where no expression starts, which is dropped.
   */
  lemma ParseDropsOnlyTrailer(text: string)
    ensures var rest := ParseProgram(Parser.Clean(text)).value.right;
            Parser.Clean(text) == PrintProgram(Parse(text), rest) && ParseExpression(rest).Failure? &&
            IsSuffix(rest, Parser.Clean(text))
  {
    ProgramLossless(Parser.Clean(text));
  }
}
