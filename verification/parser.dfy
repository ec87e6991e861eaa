/**
 * The recursive-descent backtracking parser of src/Parser.js:
 *
 *   Program    -> Expression Program | epsilon
 *   Expression -> Assign ; | S ;
 *   Assign     -> Var = S
 *   Var        -> VarChar Var | epsilon
 *   S          -> N (+|-) S | N (+|-) F | F (+|-) S | F
 *   F          -> N (*|/) F | N (*|/) E | E (*|/) F | E
 *   E          -> ( S ) | N | Var
 *   N          -> D . D | - D . D | - D | D
 *   D          -> 0 D | 1 D | epsilon
 *
 * Every rule maps a stream to `pair(tree, rest)` or fails; `or` tries the
 * alternatives in the order listed. `S` calls `F` and `F` calls `E` on the
 * same input, and `E` re-enters `S` only past a `(`, so the rules terminate
 * on `|input|` paired with the grammar level.
 */
module Parser {
  import opened Utils
  import opened Comments
  import opened Ast

  predicate IsBit(c: char) {
    c == '0' || c == '1'
  }

  /** The symbols that end a name (`nonVarChars`). */
  predicate IsNonVarChar(c: char) {
    c == ';' || c == '0' || c == '1' || c == '+' || c == '-' || c == '*' || c == '/' ||
    c == '=' || c == '(' || c == ')'
  }

  predicate IsVarChar(c: char) {
    !IsNonVarChar(c)
  }

  const AdditiveOps: set<char> := {'+', '-'}
  const MultiplicativeOps: set<char> := {'*', '/'}

  /** A left operand, the operator after it, and the stream after the operator. */
  datatype Operand<+L> = Operand(tree: L, op: char, rest: Stream)

  /**
   * The first half of `parseBinary`: the left rule's result must be followed
   * by one of `ops`, which is consumed. The caller then runs the right rule
   * on `rest` and composes the node.
   */
  function ParseOperator<L>(left: Parsed<L>, ops: set<char>): (r: Result<Operand<L>, ParseError>)
    ensures r.Success? <==>
              left.Success? && |left.value.right| > 0 && left.value.right[0] in ops
    ensures r.Success? ==>
              r.value.tree == left.value.left && r.value.op in ops &&
              left.value.right == [r.value.op] + r.value.rest
  {
    var p :- left;
    var operator := Peek(p.right);
    if operator.Some? && operator.value in ops then
      Success(Operand(p.left, operator.value, Next(p.right)))
    else
      Failure(ParseFailure)
  }

  /** The stream after an operator lies strictly inside the stream the left rule started on. */
  lemma OperatorSuffix<L>(left: Parsed<L>, ops: set<char>, s: Stream)
    requires left.Success? ==> IsSuffix(left.value.right, s)
    ensures ParseOperator(left, ops).Success? ==>
              IsSuffix(ParseOperator(left, ops).value.rest, s) && |ParseOperator(left, ops).value.rest| < |s|
  {
    if ParseOperator(left, ops).Success? {
      SuffixTransitive(ParseOperator(left, ops).value.rest, left.value.right, s);
    }
  }

  /** `D?.int ? bit + D.int : bit`: the run after `bit`, extended by `bit`. */
  function Extend(bit: BitChar, d: D): (r: D)
    ensures r.bits.Some? && DigitsOf(r) == [bit] + DigitsOf(d)
  {
    if d.bits.Some? && |d.bits.value| > 0 then D(Some([bit] + d.bits.value)) else D(Some([bit]))
  }

  /**
   * `parseD`: never fails; consumes the maximal leading run of bits and
   * returns it, or `null` when the run is empty.
   */
  function ParseD(s: Stream): (r: Parsed<D>)
    ensures r.Success?
    ensures s == DigitsOf(r.value.left) + r.value.right
    ensures r.value.right == [] || !IsBit(r.value.right[0])
    ensures r.value.left.bits.None? <==> (s == [] || !IsBit(s[0]))
    ensures r.value.left.bits.Some? ==> |r.value.left.bits.value| > 0
    decreases |s|
  {
    var zero :=
      if Peek(s) == Some('0') then
        var p := ParseD(Next(s)).value;
        Success(Pair(Extend('0', p.left), p.right))
      else Failure(ParseFailure);
    var one :=
      if Peek(s) == Some('1') then
        var p := ParseD(Next(s)).value;
        Success(Pair(Extend('1', p.left), p.right))
      else Failure(ParseFailure);
    var empty := Success(Pair(D(None), s));
    OrOfThree(zero, one, empty, ParseFailure);
    Or([zero, one, empty], ParseFailure)
  }

  /**
   * `parseVar`: never fails; consumes the maximal leading run of name
   * symbols (anything outside `nonVarChars`, so `.` and the digits 2-9
   * too) and returns it as the name, which may be empty.
   */
  function ParseVar(s: Stream): (r: Parsed<Var>)
    ensures r.Success?
    ensures s == r.value.left.name + r.value.right
    ensures forall i | 0 <= i < |r.value.left.name| :: IsVarChar(r.value.left.name[i])
    ensures r.value.right == [] || !IsVarChar(r.value.right[0])
    decreases |s|
  {
    var token := Peek(s);
    var more :=
      if token.Some? && IsVarChar(token.value) then
        var p := ParseVar(Next(s)).value;
        var name := [token.value] + p.left.name;
        assert s == name + p.right by {
          assert s == [s[0]] + Next(s);
        }
        assert forall i | 0 <= i < |name| :: IsVarChar(name[i]) by {
          assert forall i | 1 <= i < |name| :: name[i] == p.left.name[i - 1];
        }
        Success(Pair(Var(name), p.right))
      else Failure(ParseFailure);
    var empty := Success(Pair(Var(""), s));
    OrOfTwo(more, empty, ParseFailure);
    Or([more, empty], ParseFailure)
  }

  /** `N -> D . D`: an unsigned number with a point; either run may be empty. */
  function PointNumber(s: Stream): (r: Parsed<N>)
    ensures r.Success? <==> Peek(ParseD(s).value.right) == Some('.')
    ensures r.Success? ==> r.value.left.fraction.Some? && !r.value.left.negative &&
                           IsSuffix(r.value.right, s) && |r.value.right| < |s|
  {
    var p1 := ParseD(s).value;
    if Peek(p1.right) == Some('.') then
      var p2 := ParseD(Next(p1.right)).value;
      Success(Pair(N(p1.left, Some(p2.left), false), p2.right))
    else Failure(ParseFailure)
  }

  /** `N -> - D . D`, failing with `error`. */
  function NegativePointNumber(s: Stream, error: ParseError): (r: Parsed<N>)
    ensures r.Success? <==> Peek(s) == Some('-') && Peek(ParseD(Next(s)).value.right) == Some('.')
    ensures r.Failure? ==> r.error == error
    ensures r.Success? ==> r.value.left.fraction.Some? && r.value.left.negative &&
                           IsSuffix(r.value.right, s) && |r.value.right| < |s|
  {
    if Peek(s) == Some('-') then
      var p1 := ParseD(Next(s)).value;
      if Peek(p1.right) == Some('.') then
        var p2 := ParseD(Next(p1.right)).value;
        Success(Pair(N(p1.left, Some(p2.left), true), p2.right))
      else Failure(error)
    else Failure(error)
  }

  /** `N -> - D`, failing with `error`; the run may be empty. */
  function NegativeNumber(s: Stream, error: ParseError): (r: Parsed<N>)
    ensures r.Success? <==> Peek(s) == Some('-')
    ensures r.Failure? ==> r.error == error
    ensures r.Success? ==> r.value.left.fraction.None? && r.value.left.negative &&
                           IsSuffix(r.value.right, s) && |r.value.right| < |s|
  {
    if Peek(s) == Some('-') then
      var p := ParseD(Next(s)).value;
      Success(Pair(N(p.left, None, true), p.right))
    else Failure(error)
  }

  /**
   * `N -> D`: the bits alone. The later version refuses an empty run
   * (`allowEmpty` false); BitCalculator.js accepts it.
   */
  function DigitsNumber(s: Stream, allowEmpty: bool): (r: Parsed<N>)
    ensures r.Success? <==> allowEmpty || (|s| > 0 && IsBit(s[0]))
    ensures r.Success? ==> r.value.left.fraction.None? && !r.value.left.negative &&
                           s == DigitsOf(r.value.left.integer) + r.value.right &&
                           IsSuffix(r.value.right, s)
  {
    var p := ParseD(s).value;
    if !allowEmpty && (p.left.bits.None? || |p.left.bits.value| == 0) then Failure(ParseFailure)
    else Success(Pair(N(p.left, None, false), p.right))
  }

  /**
   * `parseN`: a signed binary number. It succeeds exactly when the input
   * starts with a bit, `.` or `-`, and then consumes at least one symbol:
   * the digits-only alternative refuses an empty run.
   */
  function ParseN(s: Stream): (r: Parsed<N>)
    ensures r.Success? <==> |s| > 0 && (IsBit(s[0]) || s[0] == '.' || s[0] == '-')
    ensures r.Success? ==> IsSuffix(r.value.right, s) && |r.value.right| < |s|
  {
    var point := PointNumber(s);
    var negativePoint := NegativePointNumber(s, ParseFailure);
    var negative := NegativeNumber(s, ParseFailure);
    var digits := DigitsNumber(s, false);
    OrOfFour(point, negativePoint, negative, digits, ParseFailure);
    Or([point, negativePoint, negative, digits], ParseFailure)
  }

  /**
   * `parseS`: never fails, because its last alternative ends in `E -> Var`,
   * which accepts the empty name; the rest is a suffix of the input.
   */
  function ParseS(s: Stream): (r: Parsed<S>)
    ensures r.Success? && IsSuffix(r.value.right, s)
    decreases |s|, 6
  {
    OrOfFour(ParseSNS(s), ParseSNF(s), ParseSFS(s), ParseSF(s), ParseFailure);
    Or([ParseSNS(s), ParseSNF(s), ParseSFS(s), ParseSF(s)], ParseFailure)
  }

  /** `S -> N (+|-) S`, through `parseBinary`. */
  function ParseSNS(s: Stream): (r: Parsed<S>)
    ensures r.Success? ==> IsSuffix(r.value.right, s)
    decreases |s|, 5
  {
    OperatorSuffix(ParseN(s), AdditiveOps, s);
    var o :- ParseOperator(ParseN(s), AdditiveOps);
    var p := ParseS(o.rest).value;
    SuffixTransitive(p.right, o.rest, s);
    Success(Pair(SNS(o.tree, o.op, p.left), p.right))
  }

  /** `S -> N (+|-) F`. */
  function ParseSNF(s: Stream): (r: Parsed<S>)
    ensures r.Success? ==> IsSuffix(r.value.right, s)
    decreases |s|, 5
  {
    OperatorSuffix(ParseN(s), AdditiveOps, s);
    var o :- ParseOperator(ParseN(s), AdditiveOps);
    var p := ParseF(o.rest).value;
    SuffixTransitive(p.right, o.rest, s);
    Success(Pair(SNF(o.tree, o.op, p.left), p.right))
  }

  /** `S -> F (+|-) S`. */
  function ParseSFS(s: Stream): (r: Parsed<S>)
    ensures r.Success? ==> IsSuffix(r.value.right, s)
    decreases |s|, 5
  {
    OperatorSuffix(ParseF(s), AdditiveOps, s);
    var o :- ParseOperator(ParseF(s), AdditiveOps);
    var p := ParseS(o.rest).value;
    SuffixTransitive(p.right, o.rest, s);
    Success(Pair(SFS(o.tree, o.op, p.left), p.right))
  }

  /** `S -> F`. */
  function ParseSF(s: Stream): (r: Parsed<S>)
    ensures r.Success? && IsSuffix(r.value.right, s)
    decreases |s|, 5
  {
    var p := ParseF(s).value;
    Success(Pair(SF(p.left), p.right))
  }

  /** `parseF`: never fails, for the same reason as `parseS`. */
  function ParseF(s: Stream): (r: Parsed<F>)
    ensures r.Success? && IsSuffix(r.value.right, s)
    decreases |s|, 4
  {
    OrOfFour(ParseFNF(s), ParseFNE(s), ParseFEF(s), ParseFE(s), ParseFailure);
    Or([ParseFNF(s), ParseFNE(s), ParseFEF(s), ParseFE(s)], ParseFailure)
  }

  /** `F -> N (*|/) F`. */
  function ParseFNF(s: Stream): (r: Parsed<F>)
    ensures r.Success? ==> IsSuffix(r.value.right, s)
    decreases |s|, 3
  {
    OperatorSuffix(ParseN(s), MultiplicativeOps, s);
    var o :- ParseOperator(ParseN(s), MultiplicativeOps);
    var p := ParseF(o.rest).value;
    SuffixTransitive(p.right, o.rest, s);
    Success(Pair(FNF(o.tree, o.op, p.left), p.right))
  }

  /** `F -> N (*|/) E`. */
  function ParseFNE(s: Stream): (r: Parsed<F>)
    ensures r.Success? ==> IsSuffix(r.value.right, s)
    decreases |s|, 3
  {
    OperatorSuffix(ParseN(s), MultiplicativeOps, s);
    var o :- ParseOperator(ParseN(s), MultiplicativeOps);
    var p := ParseE(o.rest).value;
    SuffixTransitive(p.right, o.rest, s);
    Success(Pair(FNE(o.tree, o.op, p.left), p.right))
  }

  /** `F -> E (*|/) F`. */
  function ParseFEF(s: Stream): (r: Parsed<F>)
    ensures r.Success? ==> IsSuffix(r.value.right, s)
    decreases |s|, 3
  {
    OperatorSuffix(ParseE(s), MultiplicativeOps, s);
    var o :- ParseOperator(ParseE(s), MultiplicativeOps);
    var p := ParseF(o.rest).value;
    SuffixTransitive(p.right, o.rest, s);
    Success(Pair(FEF(o.tree, o.op, p.left), p.right))
  }

  /** `F -> E`. */
  function ParseFE(s: Stream): (r: Parsed<F>)
    ensures r.Success? && IsSuffix(r.value.right, s)
    decreases |s|, 3
  {
    var p := ParseE(s).value;
    Success(Pair(FE(p.left), p.right))
  }

  /** `parseE`: never fails, since its last alternative, a name, never does. */
  function ParseE(s: Stream): (r: Parsed<E>)
    ensures r.Success? && IsSuffix(r.value.right, s)
    decreases |s|, 2
  {
    OrOfThree(ParseEParen(s), ParseEN(s), ParseEVar(s), ParseFailure);
    Or([ParseEParen(s), ParseEN(s), ParseEVar(s)], ParseFailure)
  }

  /** `E -> ( S )`. */
  function ParseEParen(s: Stream): (r: Parsed<E>)
    ensures r.Success? ==> IsSuffix(r.value.right, s)
    decreases |s|, 1
  {
    if Peek(s) == Some('(') then
      var p := ParseS(Next(s)).value;
      SuffixTransitive(p.right, Next(s), s);
      if Peek(p.right) == Some(')') then
        SuffixTransitive(Next(p.right), p.right, s);
        Success(Pair(EParen(p.left), Next(p.right)))
      else Failure(ParseFailure)
    else Failure(ParseFailure)
  }

  /** `E -> N`. */
  function ParseEN(s: Stream): (r: Parsed<E>)
    ensures r.Success? <==> ParseN(s).Success?
    ensures r.Success? ==> IsSuffix(r.value.right, s)
  {
    var p :- ParseN(s);
    Success(Pair(EN(p.left), p.right))
  }

  /** `E -> Var`: never fails. */
  function ParseEVar(s: Stream): (r: Parsed<E>)
    ensures r.Success? && IsSuffix(r.value.right, s)
  {
    var p := ParseVar(s).value;
    Success(Pair(EVar(p.left), p.right))
  }

  /**
   * How `parseS` chooses. A number followed by an additive operator always
   * takes `N op S`, so operator chains nest to the right and `N op F` is
   * never chosen; otherwise an `F` followed by an operator takes `F op S`;
   * otherwise the `S` is the lone `F`.
   */
  lemma ParseSChoice(s: Stream)
    ensures var o := ParseOperator(ParseN(s), AdditiveOps);
            o.Success? ==>
              var p := ParseS(o.value.rest).value;
              ParseS(s).value == Pair(SNS(o.value.tree, o.value.op, p.left), p.right)
    ensures var o := ParseOperator(ParseF(s), AdditiveOps);
            ParseOperator(ParseN(s), AdditiveOps).Failure? && o.Success? ==>
              var p := ParseS(o.value.rest).value;
              ParseS(s).value == Pair(SFS(o.value.tree, o.value.op, p.left), p.right)
    ensures ParseOperator(ParseN(s), AdditiveOps).Failure? && ParseOperator(ParseF(s), AdditiveOps).Failure? ==>
              ParseS(s).value == Pair(SF(ParseF(s).value.left), ParseF(s).value.right)
    ensures !ParseS(s).value.left.SNF?
  {
    OrOfFour(ParseSNS(s), ParseSNF(s), ParseSFS(s), ParseSF(s), ParseFailure);
  }

  /**
   * How `parseF` chooses, in the same way: `N op F` whenever a number is
   * followed by a multiplicative operator (so `N op E` is never chosen),
   * otherwise `E op F`, otherwise the lone `E`.
   */
  lemma ParseFChoice(s: Stream)
    ensures var o := ParseOperator(ParseN(s), MultiplicativeOps);
            o.Success? ==>
              var p := ParseF(o.value.rest).value;
              ParseF(s).value == Pair(FNF(o.value.tree, o.value.op, p.left), p.right)
    ensures var o := ParseOperator(ParseE(s), MultiplicativeOps);
            ParseOperator(ParseN(s), MultiplicativeOps).Failure? && o.Success? ==>
              var p := ParseF(o.value.rest).value;
              ParseF(s).value == Pair(FEF(o.value.tree, o.value.op, p.left), p.right)
    ensures ParseOperator(ParseN(s), MultiplicativeOps).Failure? &&
            ParseOperator(ParseE(s), MultiplicativeOps).Failure? ==>
              ParseF(s).value == Pair(FE(ParseE(s).value.left), ParseE(s).value.right)
    ensures !ParseF(s).value.left.FNE?
  {
    OrOfFour(ParseFNF(s), ParseFNE(s), ParseFEF(s), ParseFE(s), ParseFailure);
  }

  /** `(` with a matching `)` after the inner `S`. */
  predicate ClosesParen(s: Stream) {
    Peek(s) == Some('(') && Peek(ParseS(Next(s)).value.right) == Some(')')
  }

  /**
   * How `parseE` chooses: a parenthesised `S` when the `)` follows it,
   * otherwise a number when one starts here, otherwise a name (possibly
   * the empty one, consuming nothing).
   */
  lemma ParseEChoice(s: Stream)
    ensures ClosesParen(s) ==>
              var p := ParseS(Next(s)).value;
              ParseE(s).value == Pair(EParen(p.left), Next(p.right))
    ensures !ClosesParen(s) && ParseN(s).Success? ==>
              ParseE(s).value == Pair(EN(ParseN(s).value.left), ParseN(s).value.right)
    ensures !ClosesParen(s) && ParseN(s).Failure? ==>
              ParseE(s).value == Pair(EVar(ParseVar(s).value.left), ParseVar(s).value.right)
  {
    OrOfThree(ParseEParen(s), ParseEN(s), ParseEVar(s), ParseFailure);
  }

  /**
   * `parseAssign`: a name, then `=`, then an `S`. It succeeds exactly when
   * the maximal name run is followed by `=`.
   */
  function ParseAssign(s: Stream): (r: Parsed<Assign>)
    ensures var v := ParseVar(s).value;
            r.Success? <==> |v.right| > 0 && v.right[0] == '='
    ensures r.Success? ==>
              r.value.left.v == ParseVar(s).value.left &&
              IsSuffix(r.value.right, s) && |r.value.right| < |s|
  {
    var v := ParseVar(s).value;
    if Peek(v.right) == Some('=') then
      var p := ParseS(Next(v.right)).value;
      Success(Pair(Assign(v.left, p.left), p.right))
    else
      Failure(ParseFailure)
  }

  /** Input starting with `=` is an assignment to the empty name. */
  lemma AssignToEmptyName(s: Stream)
    requires |s| > 0 && s[0] == '='
    ensures ParseAssign(s).Success? && ParseAssign(s).value.left.v == Var("")
  {
    assert !IsVarChar(s[0]);
  }

  /** The rule's tree is followed by `;`. */
  predicate EndsWithSemicolon<T>(r: Parsed<T>) {
    r.Success? && |r.value.right| > 0 && r.value.right[0] == ';'
  }

  /**
   * `parseExpression`: an assignment or an `S`, either followed by a `;`
   * that is consumed. The assignment is tried first.
   */
  function ParseExpression(s: Stream): (r: Parsed<Expression>)
    ensures r.Success? <==> EndsWithSemicolon(ParseAssign(s)) || EndsWithSemicolon(ParseS(s))
    ensures EndsWithSemicolon(ParseAssign(s)) ==>
              r.value == Pair(AssignExpr(ParseAssign(s).value.left), ParseAssign(s).value.right[1..])
    ensures !EndsWithSemicolon(ParseAssign(s)) && r.Success? ==>
              r.value == Pair(SExpr(ParseS(s).value.left), ParseS(s).value.right[1..])
    ensures r.Success? ==>
              IsSuffix(r.value.right, s) && |r.value.right| < |s| && s[|s| - |r.value.right| - 1] == ';'
  {
    var assign :=
      var p :- ParseAssign(s);
      if Peek(p.right) == Some(';') then
        SuffixTransitive(Next(p.right), p.right, s);
        Success(Pair(AssignExpr(p.left), Next(p.right)))
      else Failure(ParseFailure);
    var term :=
      var p := ParseS(s).value;
      if Peek(p.right) == Some(';') then
        SuffixTransitive(Next(p.right), p.right, s);
        Success(Pair(SExpr(p.left), Next(p.right)))
      else Failure(ParseFailure);
    OrOfTwo(assign, term, ParseFailure);
    Or([assign, term], ParseFailure)
  }

  /**
   * `parseProgram`: never fails. It takes expressions while they parse and
   * stops, with the terminal node, exactly where no expression parses; what
   * is left there is not an error.
   */
  function ParseProgram(s: Stream): (r: Parsed<Program>)
    ensures r.Success? && IsSuffix(r.value.right, s)
    ensures ParseExpression(r.value.right).Failure?
    ensures r.value.left.Empty? <==> ParseExpression(s).Failure?
    decreases |s|
  {
    var more := (
      var e :- ParseExpression(s);
      var p := ParseProgram(e.right).value;
      SuffixTransitive(p.right, e.right, s);
      Success(Pair(Cons(e.left, p.left), p.right)));
    var done := Success(Pair(Empty, s));
    OrOfTwo(more, done, ParseFailure);
    Or([more, done], ParseFailure)
  }

  /**
   * One step of `parseProgram`: an expression followed by the program of
   * what is left after it, or the terminal node on the untouched input.
   */
  lemma ParseProgramStep(s: Stream)
    ensures var e := ParseExpression(s);
            e.Success? ==>
              var p := ParseProgram(e.value.right).value;
              ParseProgram(s).value == Pair(Cons(e.value.left, p.left), p.right)
    ensures ParseExpression(s).Failure? ==> ParseProgram(s).value == Pair(Empty, s)
  {
    var done := Success(Pair(Empty, s));
    if ParseExpression(s).Success? {
      var e := ParseExpression(s).value;
      var p := ParseProgram(e.right).value;
      OrOfTwo(Success(Pair(Cons(e.left, p.left), p.right)), done, ParseFailure);
    } else {
      OrOfTwo(Failure(ParseExpression(s).error), done, ParseFailure);
    }
  }

  /** The filter `parse` applies after removing comments. */
  predicate NotBlank(c: char) {
    c != ' ' && c != '\n'
  }

  /** What the grammar sees: comments removed first, then spaces and newlines. */
  function Clean(text: string): (r: Stream)
    ensures forall i | 0 <= i < |r| :: NotBlank(r[i])
    ensures IsSubsequence(r, text)
  {
    var uncommented := RemoveComments(text);
    var r := Filter(uncommented, NotBlank);
    SubsequenceTransitive(r, uncommented, text);
    r
  }

  /**
   * `parse(string)`: the program parsed from the cleaned text; whatever the
   * program rule leaves unconsumed is discarded.
   */
  function Parse(text: string): (p: Program)
    ensures p.Empty? <==> ParseExpression(Clean(text)).Failure?
    ensures p.Cons? ==> p.expression == ParseExpression(Clean(text)).value.left
  {
    ParseProgram(Clean(text)).value.left
  }
}
