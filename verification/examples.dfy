/**
 * Worked inputs the source documents: the sample numbers of the built-in
 * read-me, the lone `;` of the earlier grammar, and the right nesting of a
 * chain of subtractions.
 */
module Examples {
  import opened Utils
  import opened Ast
  import Comments
  import Parser
  import Calculator
  import BitCalculator
  import opened Printer

  const One: N := N(D(Some(['1'])), None, false)

  /** The read-me's `-0.01` is a quarter below zero. */
  lemma MinusQuarter()
    ensures Calculator.NumValue(N(D(Some(['0'])), Some(D(Some(['0', '1']))), true)) == -0.25
  {
    var fraction: seq<int> := [0, 1];
    assert Calculator.ExeD(Some(D(Some(['0', '1'])))) == fraction;
    assert fraction[..1] == [0];
    assert Calculator.FractionValue(fraction) == 0.25;
    assert Calculator.ExeD(Some(D(Some(['0'])))) == [0];
  }

  /** The read-me's `11.0010010` is `3 + 1/8 + 1/64`, the 3.14 it claims up to rounding. */
  lemma NearlyPi()
    ensures Calculator.NumValue(N(D(Some(['1', '1'])),
                                  Some(D(Some(['0', '0', '1', '0', '0', '1', '0']))), false)) == 3.140625
  {
    var integer: seq<int> := [1, 1];
    var fraction: seq<int> := [0, 0, 1, 0, 0, 1, 0];
    assert Calculator.ExeD(Some(D(Some(['1', '1'])))) == integer;
    assert Calculator.ExeD(Some(D(Some(['0', '0', '1', '0', '0', '1', '0'])))) == fraction;
    assert integer[1..] == [1];
    assert Calculator.IntegerValue(integer) == 3.0;
    Calculator.TrailingZeroIgnored(fraction[..6]);
    assert fraction[..6] + [0] == fraction;
    assert fraction[..6][..5] == [0, 0, 1, 0, 0];
    assert fraction[..6][..5][..4] == [0, 0, 1, 0];
    assert fraction[..6][..5][..4][..3] == [0, 0, 1];
    assert Calculator.FractionValue([0, 0, 1]) == 0.125 by {
      assert [0, 0, 1][..2] == [0, 0];
      assert [0, 0][..1] == [0];
      assert [0][..0] == [];
    }
    assert Calculator.FractionValue([0, 0, 1, 0]) == 0.125;
    assert Calculator.FractionValue([0, 0, 1, 0, 0]) == 0.125;
    assert Calculator.FractionValue(fraction[..6]) == 0.140625;
  }

  /** The empty number denotes 0: both absent runs read as `[0]`. */
  lemma EmptyNumberIsZero()
    ensures Calculator.NumValue(BitCalculator.EmptyNumber) == 0.0
  {
    var zero: seq<int> := [0];
    assert Calculator.ExeD(Some(D(None))) == zero;
    assert Calculator.ExeD(None) == zero;
    assert zero[1..] == [] && zero[..0] == [];
    assert Calculator.IntegerValue(zero) == 0.0;
    assert Calculator.FractionValue(zero) == 0.0;
  }

  /**
   * In the earlier grammar, `N` and `E` succeed in front of a `;` without
   * consuming it, building the empty number ...
   */
  lemma OldAtomBeforeSemicolon(s: Stream)
    requires |s| > 0 && s[0] == ';'
    ensures BitCalculator.ParseN(s).value == Pair(BitCalculator.EmptyNumber, s)
    ensures BitCalculator.ParseE(s).value == Pair(EN(BitCalculator.EmptyNumber), s)
  {
    assert Parser.ParseN(s).Failure?;
    BitCalculator.ParseEChoice(s);
  }

  /** ... and so do `F` ... */
  lemma OldTermBeforeSemicolon(s: Stream)
    requires |s| > 0 && s[0] == ';'
    ensures BitCalculator.ParseF(s).value == Pair(FE(EN(BitCalculator.EmptyNumber)), s)
  {
    assert ';' !in Parser.MultiplicativeOps;
    OldAtomBeforeSemicolon(s);
    BitCalculator.ParseFChoice(s);
  }

  /** ... and `S`. */
  lemma OldRulesBeforeSemicolon(s: Stream)
    requires |s| > 0 && s[0] == ';'
    ensures BitCalculator.ParseS(s) == Success(Pair(SF(FE(EN(BitCalculator.EmptyNumber))), s))
  {
    assert ';' !in Parser.AdditiveOps;
    OldAtomBeforeSemicolon(s);
    OldTermBeforeSemicolon(s);
    BitCalculator.ParseSChoice(s);
  }

  /**
   * In the earlier grammar a lone `;` is one expression: an `S` built from
   * the empty number.
   */
  lemma SemicolonAloneParses()
    ensures BitCalculator.Parse(";") == Cons(SExpr(SF(FE(EN(BitCalculator.EmptyNumber)))), Empty)
  {
    var text := ";";
    PlainTextIsClean(text);
    OldRulesBeforeSemicolon(text);
    assert BitCalculator.ParseExpression(text) ==
           Success(Pair(SExpr(SF(FE(EN(BitCalculator.EmptyNumber)))), []));
    assert BitCalculator.ParseExpression([]).Failure?;
  }

  /** ... and that expression prints as 0. */
  lemma SemicolonAloneEvaluates(show: Calculator.Number -> string)
    ensures Calculator.Execute(BitCalculator.Parse(";"), show) == Some("> " + show(Calculator.Exact(0.0)))
  {
    SemicolonAloneParses();
    EmptyNumberIsZero();
    LoneNumber(BitCalculator.EmptyNumber, show);
  }

  /** A program of one `S` expression prints that expression's value. */
  lemma LoneExpression(e: S, show: Calculator.Number -> string)
    ensures Calculator.Execute(Cons(SExpr(e), Empty), show) == Some("> " + show(Calculator.ExeS(e)))
  {
    var line := Calculator.Line(Calculator.ExeS(e), show);
    assert Calculator.ExeProgram(Empty, show) == Some([]);
    assert [line] + [] == [line];
    assert Calculator.ExeProgram(Cons(SExpr(e), Empty), show) == Some([line]);
  }

  /** A program of one lone number prints that number's value. */
  lemma LoneNumber(n: N, show: Calculator.Number -> string)
    ensures Calculator.Execute(Cons(SExpr(SF(FE(EN(n)))), Empty), show) ==
            Some("> " + show(Calculator.Exact(Calculator.NumValue(n))))
  {
    assert Calculator.ExeE(EN(n)) == Calculator.Exact(Calculator.NumValue(n));
    assert Calculator.ExeF(FE(EN(n))) == Calculator.ExeE(EN(n));
    assert Calculator.ExeS(SF(FE(EN(n)))) == Calculator.ExeF(FE(EN(n)));
    LoneExpression(SF(FE(EN(n))), show);
  }

  /** A lone `1` in front of `rest` is read as the number one, in the later grammar. */
  lemma OneBefore(rest: Stream)
    requires |rest| > 0 && !Parser.IsBit(rest[0]) && rest[0] != '.'
    ensures Parser.ParseN(['1'] + rest).value == Pair(One, rest)
  {
    var s := ['1'] + rest;
    var d := Parser.ParseD(s).value;
    assert s[1..] == rest;
    assert forall i | 0 <= i < |DigitsOf(d.left)| :: s[i] == DigitsOf(d.left)[i];
    assert !Parser.IsBit(s[1]);
    assert |DigitsOf(d.left)| == 1;
    assert d.left == D(Some(['1']));
    assert d.right == rest;
    OrOfFour(Parser.PointNumber(s), Parser.NegativePointNumber(s, ParseFailure),
             Parser.NegativeNumber(s, ParseFailure), Parser.DigitsNumber(s, false), ParseFailure);
  }

  /** `1` in front of a `;` is the lone number one; the `;` is left. */
  lemma OneBeforeSemicolon(rest: Stream)
    requires |rest| > 0 && rest[0] == ';'
    ensures Parser.ParseS(['1'] + rest).value == Pair(SF(FE(EN(One))), rest)
  {
    var s := ['1'] + rest;
    OneBefore(rest);
    assert ';' !in Parser.AdditiveOps && ';' !in Parser.MultiplicativeOps by {
      assert Parser.AdditiveOps == {'+', '-'} && Parser.MultiplicativeOps == {'*', '/'};
    }
    Parser.ParseEChoice(s);
    Parser.ParseFChoice(s);
    Parser.ParseSChoice(s);
  }

  /** `1-` reads as the number one and the additive operator `-`. */
  lemma OneThenMinus(b: Stream)
    ensures Parser.ParseOperator(Parser.ParseN(['1', '-'] + b), Parser.AdditiveOps) ==
            Success(Parser.Operand(One, '-', b))
  {
    var s := ['1', '-'] + b;
    assert s == ['1'] + (['-'] + b);
    OneBefore(['-'] + b);
    assert (['-'] + b)[1..] == b;
    assert Parser.AdditiveOps == {'+', '-'};
  }

  /**
   * A `1` followed by `-` takes the `N op S` alternative: prefixing `1-` to
   * a stream wraps its `S` in a subtraction from one.
   */
  lemma OneMinus(b: Stream, rest: Stream, tree: S)
    requires Parser.ParseS(b).value == Pair(tree, rest)
    ensures Parser.ParseS(['1', '-'] + b).value == Pair(SNS(One, '-', tree), rest)
  {
    OneThenMinus(b);
    Parser.ParseSChoice(['1', '-'] + b);
  }

  /** The subtraction chain `1-1-1` nests to the right. */
  lemma ChainTree(rest: Stream)
    requires |rest| > 0 && rest[0] == ';'
    ensures Parser.ParseS(['1', '-'] + (['1', '-'] + (['1'] + rest))).value ==
            Pair(SNS(One, '-', SNS(One, '-', SF(FE(EN(One))))), rest)
  {
    OneBeforeSemicolon(rest);
    OneMinus(['1'] + rest, rest, SF(FE(EN(One))));
    OneMinus(['1', '-'] + (['1'] + rest), rest, SNS(One, '-', SF(FE(EN(One)))));
  }

  /** The text `1-1-1;`, followed by `rest`. */
  function Chain(rest: Stream): Stream {
    ['1', '-'] + (['1', '-'] + (['1'] + ([';'] + rest)))
  }

  /** Text that starts with a bit is not an assignment: the bit ends the empty name. */
  lemma BitStartsNoAssignment(s: Stream)
    requires |s| > 0 && Parser.IsBit(s[0])
    ensures Parser.ParseAssign(s).Failure?
  {
    assert !Parser.IsVarChar(s[0]);
  }

  /** `1-1-1;` is one `S` expression: the `Assign` alternative fails, as `1` ends a name. */
  lemma ChainExpression(rest: Stream)
    ensures Parser.ParseExpression(Chain(rest)) ==
            Success(Pair(SExpr(SNS(One, '-', SNS(One, '-', SF(FE(EN(One)))))), rest))
  {
    ChainTree([';'] + rest);
    BitStartsNoAssignment(Chain(rest));
    assert ([';'] + rest)[1..] == rest;
  }

  /** Text that the cleaning pass leaves alone and where no further expression starts. */
  predicate Trailer(rest: Stream) {
    Plain(rest) && Parser.ParseExpression(rest).Failure?
  }

  /** The chain followed by plain text is its own cleaned form. */
  lemma ChainIsClean(rest: Stream)
    requires Plain(rest)
    ensures Parser.Clean(Chain(rest)) == Chain(rest)
  {
    var prefix := ['1', '-', '1', '-', '1', ';'];
    assert Plain(prefix);
    assert Chain(rest) == prefix + rest;
    PlainConcat(prefix, rest);
    PlainTextIsClean(Chain(rest));
  }

  /** Followed by nothing parsable, the chain is a one-expression program. */
  lemma ChainProgram(rest: Stream)
    requires Parser.ParseExpression(rest).Failure?
    ensures Parser.ParseProgram(Chain(rest)).value.left ==
            Cons(SExpr(SNS(One, '-', SNS(One, '-', SF(FE(EN(One)))))), Empty)
  {
    ChainExpression(rest);
    Parser.ParseProgramStep(Chain(rest));
    Parser.ParseProgramStep(rest);
  }

  /** ... and, with nothing parsable after it, it is the whole program. */
  lemma ChainNestsRight(rest: Stream)
    requires Trailer(rest)
    ensures Parser.Parse(Chain(rest)) == Cons(SExpr(SNS(One, '-', SNS(One, '-', SF(FE(EN(One)))))), Empty)
  {
    ChainIsClean(rest);
    ChainProgram(rest);
  }

  /** The number one is worth 1. */
  lemma OneIsOne()
    ensures Calculator.NumValue(One) == 1.0
  {
    assert Calculator.ExeD(Some(D(Some(['1'])))) == [1];
    assert [1][1..] == [];
    assert Calculator.ExeD(None) == [0];
    assert [0][..0] == [];
  }

  /** The right-nested tree of `1-1-1` is `1 - (1 - 1)`, which is 1. */
  lemma ChainValue()
    ensures Calculator.ExeS(SNS(One, '-', SNS(One, '-', SF(FE(EN(One)))))) == Calculator.Exact(1.0)
  {
    OneIsOne();
    var one := Calculator.Exact(1.0);
    var inner := SF(FE(EN(One)));
    assert Calculator.ExeE(EN(One)) == one;
    assert Calculator.ExeF(FE(EN(One))) == one;
    assert Calculator.ExeS(inner) == one;
    assert Calculator.ExeS(SNS(One, '-', inner)) == Calculator.Exact(0.0);
  }

  /** ... so the program prints 1, not the -1 of a left-to-right reading. */
  lemma ChainEvaluatesToOne(rest: Stream, show: Calculator.Number -> string)
    requires Trailer(rest)
    ensures Calculator.Execute(Parser.Parse(Chain(rest)), show) == Some("> " + show(Calculator.Exact(1.0)))
  {
    ChainNestsRight(rest);
    ChainValue();
    LoneExpression(SNS(One, '-', SNS(One, '-', SF(FE(EN(One))))), show);
  }
}
