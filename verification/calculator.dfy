/**
 * The tree-walking evaluator of src/Calculator.js (identical, apart from
 * names, to the one at BitCalculator.js:393-507): binary literals become
 * exact rationals, `+ - * /` are folded over the right-nested tree, and the
 * program is rendered as one `"> " + value` line per expression.
 */
module Calculator {
  import opened Utils
  import opened Ast

  /**
   * A value of the evaluator. The source computes with JS numbers; here a
   * value is exact, and any division by zero (where JS would produce
   * `Infinity` or `NaN`) is marked as such and absorbs later arithmetic.
   */
  datatype Number = Exact(value: real) | DivisionByZero

  function Add(a: Number, b: Number): Number {
    if a.Exact? && b.Exact? then Exact(a.value + b.value) else DivisionByZero
  }

  function Sub(a: Number, b: Number): Number {
    if a.Exact? && b.Exact? then Exact(a.value - b.value) else DivisionByZero
  }

  function Mul(a: Number, b: Number): Number {
    if a.Exact? && b.Exact? then Exact(a.value * b.value) else DivisionByZero
  }

  /** A quotient is exact exactly when both operands are and the divisor is not zero; it undoes the product. */
  function Div(a: Number, b: Number): (r: Number)
    ensures r.Exact? <==> a.Exact? && b.Exact? && b.value != 0.0
    ensures r.Exact? ==> r.value * b.value == a.value
  {
    if a.Exact? && b.Exact? && b.value != 0.0 then Exact(a.value / b.value) else DivisionByZero
  }

  /** `s.op === "+" ? a + b : a - b`: any operator other than `+` subtracts. */
  function Additive(op: char, a: Number, b: Number): Number {
    if op == '+' then Add(a, b) else Sub(a, b)
  }

  /** `f.op === "*" ? a * b : a / b`: any operator other than `*` divides. */
  function Multiplicative(op: char, a: Number, b: Number): Number {
    if op == '*' then Mul(a, b) else Div(a, b)
  }

  /** `Number.parseInt` of a bit. */
  function BitValue(c: BitChar): int {
    if c == '1' then 1 else 0
  }

  /**
   * `exeD(D)`: the digits of a run as numbers. A missing `D`, a `null`
   * run and an empty run all read as `[0]`.
   */
  function ExeD(d: Option<D>): (r: seq<int>)
    ensures |r| > 0 && forall i | 0 <= i < |r| :: r[i] == 0 || r[i] == 1
    ensures d.None? || |DigitsOf(d.value)| == 0 ==> r == [0]
    ensures d.Some? && |DigitsOf(d.value)| > 0 ==>
              |r| == |DigitsOf(d.value)| &&
              forall i | 0 <= i < |r| :: r[i] == BitValue(DigitsOf(d.value)[i])
  {
    if d.None? || |DigitsOf(d.value)| == 0 then [0]
    else
      var bits := DigitsOf(d.value);
      seq(|bits|, i requires 0 <= i < |bits| => BitValue(bits[i]))
  }

  /** `2^k`. */
  function Pow2(k: nat): real {
    if k == 0 then 1.0 else 2.0 * Pow2(k - 1)
  }

  /** `2^-k`. */
  function InvPow2(k: nat): real {
    if k == 0 then 1.0 else InvPow2(k - 1) / 2.0
  }

  /** The integer part: the sum of `b[i] * 2^(k-1-i)` over the `k` bits. */
  function IntegerValue(b: seq<int>): real
    decreases |b|
  {
    if |b| == 0 then 0.0 else b[0] as real * Pow2(|b| - 1) + IntegerValue(b[1..])
  }

  /** The fraction part: the sum of `b[i] * 2^-(i+1)` over the bits. */
  function FractionValue(b: seq<int>): real
    decreases |b|
  {
    if |b| == 0 then 0.0 else FractionValue(b[..|b| - 1]) + b[|b| - 1] as real * InvPow2(|b|)
  }

  /** The value a number denotes: integer part plus fraction part, negated when signed. */
  function NumValue(n: N): real {
    var magnitude := IntegerValue(ExeD(Some(n.integer))) + FractionValue(ExeD(n.fraction));
    if n.negative then -1.0 * magnitude else magnitude
  }

  /**
   * The first loop of `exeN`: the integer bits read from the last one, with a
   * place value that doubles at each step.
   */
  method SumIntegerBits(bits: seq<int>) returns (integer: real)
    ensures integer == IntegerValue(bits)
  {
    integer := 0.0;
    var id := 1.0;
    var i := |bits| - 1;
    while i >= 0
      invariant -1 <= i < |bits|
      invariant id == Pow2(|bits| - 1 - i)
      invariant integer == IntegerValue(bits[i + 1..])
    {
      assert bits[i..][1..] == bits[i + 1..];
      integer := integer + id * bits[i] as real;
      id := id * 2.0;
      i := i - 1;
    }
    assert bits[0..] == bits;
  }

  /**
   * The second loop of `exeN`: the fraction bits read from the first one,
   * with a place value that halves at each step.
   */
  method SumFractionBits(bits: seq<int>) returns (decimal: real)
    ensures decimal == FractionValue(bits)
  {
    decimal := 0.0;
    var id := 0.5;
    var i := 0;
    while i < |bits|
      invariant 0 <= i <= |bits|
      invariant id == InvPow2(i + 1)
      invariant decimal == FractionValue(bits[..i])
    {
      assert bits[..i + 1][..i] == bits[..i];
      decimal := decimal + id * bits[i] as real;
      id := id / 2.0;
      i := i + 1;
    }
    assert bits[..|bits|] == bits;
  }

  /** `exeN(N)`: the two sums added, and negated for a signed number. */
  method ExeN(n: N) returns (v: real)
    ensures v == NumValue(n)
  {
    var integer := SumIntegerBits(ExeD(Some(n.integer)));
    var decimal := SumFractionBits(ExeD(n.fraction));
    var number := integer + decimal;
    v := if n.negative then -1.0 * number else number;
  }

  /**
   * `exeS(S)`: one case per shape of `S`. Only a division can make the value
   * non-finite.
   */
  function ExeS(s: S): (r: Number)
    ensures DivisionFreeS(s) ==> r.Exact?
  {
    match s
    case SNS(n, op, s') => Additive(op, Exact(NumValue(n)), ExeS(s'))
    case SNF(n, op, f) => Additive(op, Exact(NumValue(n)), ExeF(f))
    case SFS(f, op, s') => Additive(op, ExeF(f), ExeS(s'))
    case SF(f) => ExeF(f)
  }

  /** `exeF(F)`: one case per shape of `F`. Only a division can make the value non-finite. */
  function ExeF(f: F): (r: Number)
    ensures DivisionFreeF(f) ==> r.Exact?
  {
    match f
    case FNF(n, op, f') => Multiplicative(op, Exact(NumValue(n)), ExeF(f'))
    case FNE(n, op, e) => Multiplicative(op, Exact(NumValue(n)), ExeE(e))
    case FEF(e, op, f') => Multiplicative(op, ExeE(e), ExeF(f'))
    case FE(e) => ExeE(e)
  }

  /**
   * `exeE(E)`: a parenthesised `S` or a number; a name matches no row of the
   * dispatch table and gets its default, 0. Only a division inside a
   * parenthesis can make the value non-finite.
   */
  function ExeE(e: E): (r: Number)
    ensures DivisionFreeE(e) ==> r.Exact?
  {
    match e
    case EParen(s) => ExeS(s)
    case EN(n) => Exact(NumValue(n))
    case EVar(_) => Exact(0.0)
  }

  /**
   * `exeExpression(expression)`: evaluates the `S` field. An assignment has
   * none, so the source throws a TypeError there: `None`.
   */
  function ExeExpression(e: Expression): (r: Option<Number>)
    ensures r.Some? <==> e.SExpr?
  {
    match e
    case SExpr(s) => Some(ExeS(s))
    case AssignExpr(_) => None
  }

  /** The output line of one value, `"> " + value`, for a number formatter `show`. */
  function Line(v: Number, show: Number -> string): string {
    "> " + show(v)
  }

  /** The expressions of `Cons(e, rest)` are `e` followed by those of `rest`. */
  lemma ExpressionsShift(e: Expression, rest: Program)
    ensures var es := Expressions(Cons(e, rest));
            |es| == |Expressions(rest)| + 1 && es[0] == e &&
            (forall i | 1 <= i < |es| :: es[i] == Expressions(rest)[i - 1]) &&
            (forall i | 0 <= i < |Expressions(rest)| :: Expressions(rest)[i] == es[i + 1])
  {
  }

  /**
   * `exeProgram(program)`: one line per expression, in program order, or
   * `None` when some expression is an assignment (the throw propagates).
   */
  function ExeProgram(p: Program, show: Number -> string): (r: Option<seq<string>>)
    ensures var es := Expressions(p);
            r.Some? <==> forall i | 0 <= i < |es| :: es[i].SExpr?
    ensures var es := Expressions(p);
            r.Some? ==> |r.value| == |es| &&
                        forall i | 0 <= i < |es| :: r.value[i] == Line(ExeS(es[i].s), show)
  {
    match p
    case Empty => Some([])
    case Cons(e, rest) =>
      var tail := ExeProgram(rest, show);
      ExpressionsShift(e, rest);
      match ExeExpression(e)
      case None => None
      case Some(v) =>
        if tail.None? then None else Some([Line(v, show)] + tail.value)
  }

  /** The summed lengths of some lines. */
  function TotalLength(lines: seq<string>): nat
    decreases |lines|
  {
    if |lines| == 0 then 0 else |lines[0]| + TotalLength(lines[1..])
  }

  /**
   * `array.join(separator)`: the lines with one separator between each
   * neighbouring pair, starting with the first line and ending with the last.
   */
  function Join(lines: seq<string>, separator: string): (r: string)
    ensures |lines| == 0 ==> r == ""
    ensures |lines| > 0 ==> |r| == TotalLength(lines) + (|lines| - 1) * |separator|
    ensures |lines| > 0 ==> |r| >= |lines[0]| && r[..|lines[0]|] == lines[0]
    ensures |lines| > 0 ==> var last := lines[|lines| - 1];
                            |r| >= |last| && r[|r| - |last|..] == last
    decreases |lines|
  {
    if |lines| == 0 then ""
    else if |lines| == 1 then lines[0]
    else
      var tail := Join(lines[1..], separator);
      assert lines[1..][|lines| - 2] == lines[|lines| - 1];
      lines[0] + separator + tail
  }

  /**
   * `execute(tree)`: the lines joined by newlines, or `"Empty"` for the
   * terminal program; `None` when evaluation throws on an assignment.
   */
  function Execute(p: Program, show: Number -> string): (r: Option<string>)
    ensures r.None? <==> exists i | 0 <= i < |Expressions(p)| :: Expressions(p)[i].AssignExpr?
    ensures r.Some? ==> (r.value == "Empty" <==> p.Empty?)
    ensures r.Some? && p.Cons? ==>
              |r.value| >= 2 && r.value[..2] == "> " &&
              r.value == Join(ExeProgram(p, show).value, "\n")
  {
    match ExeProgram(p, show)
    case None =>
      assert exists i | 0 <= i < |Expressions(p)| :: Expressions(p)[i].AssignExpr? by {
        var i :| 0 <= i < |Expressions(p)| && !Expressions(p)[i].SExpr?;
        assert Expressions(p)[i].AssignExpr?;
      }
      None
    case Some(lines) =>
      assert p.Cons? ==> Expressions(p)[0] == p.expression;
      if |lines| > 0 then
        assert lines[0][..2] == "> ";
        assert "Empty"[0] != '>';
        Some(Join(lines, "\n"))
      else Some("Empty")
  }

  /** Every bit is 0 or 1. */
  predicate IsBits(b: seq<int>) {
    forall i | 0 <= i < |b| :: b[i] == 0 || b[i] == 1
  }

  /** `k` bits read as an integer lie in `[0, 2^k - 1]`. */
  lemma {:induction false} IntegerValueBounds(b: seq<int>)
    requires IsBits(b)
    ensures 0.0 <= IntegerValue(b) <= Pow2(|b|) - 1.0
    decreases |b|
  {
    if |b| > 0 {
      assert IsBits(b[1..]) by {
        assert forall i | 0 <= i < |b| - 1 :: b[1..][i] == b[i + 1];
      }
      IntegerValueBounds(b[1..]);
      PowersPositive(|b| - 1);
    }
  }

  /** `k` bits read as a fraction lie in `[0, 1 - 2^-k]`, so always below 1. */
  lemma {:induction false} FractionValueBounds(b: seq<int>)
    requires IsBits(b)
    ensures 0.0 <= FractionValue(b) <= 1.0 - InvPow2(|b|)
    ensures FractionValue(b) < 1.0
    decreases |b|
  {
    PowersPositive(|b|);
    if |b| > 0 {
      var front := b[..|b| - 1];
      assert IsBits(front) by {
        assert forall i | 0 <= i < |front| :: front[i] == b[i];
      }
      FractionValueBounds(front);
    }
  }

  lemma {:induction false} PowersPositive(k: nat)
    ensures Pow2(k) >= 1.0 && InvPow2(k) > 0.0
    decreases k
  {
    if k > 0 {
      PowersPositive(k - 1);
    }
  }

  /**
   * The reading from the front agrees with Horner's rule: appending a bit
   * doubles the value and adds the bit, as the source's loop from the last
   * bit (place value doubling) computes.
   */
  lemma {:induction false} IntegerValueAppend(b: seq<int>, x: int)
    ensures IntegerValue(b + [x]) == 2.0 * IntegerValue(b) + x as real
    decreases |b|
  {
    if |b| == 0 {
      assert b + [x] == [x];
      assert [x][1..] == [];
    } else {
      assert (b + [x])[1..] == b[1..] + [x];
      IntegerValueAppend(b[1..], x);
    }
  }

  /** Leading zero bits do not change the integer part. */
  lemma LeadingZeroIgnored(b: seq<int>)
    ensures IntegerValue([0] + b) == IntegerValue(b)
  {
    assert ([0] + b)[1..] == b;
  }

  /**
   * Prepending a bit to a fraction shifts it one place right: the value
   * becomes the mean of the new bit and the old value.
   */
  lemma {:induction false} FractionValuePrepend(x: int, b: seq<int>)
    ensures FractionValue([x] + b) == (x as real + FractionValue(b)) / 2.0
    decreases |b|
  {
    var xb := [x] + b;
    if |b| == 0 {
      assert xb[..0] == [];
    } else {
      var front := b[..|b| - 1];
      assert xb[..|xb| - 1] == [x] + front;
      FractionValuePrepend(x, front);
    }
  }

  /** Trailing zero bits do not change the fraction part. */
  lemma TrailingZeroIgnored(b: seq<int>)
    ensures FractionValue(b + [0]) == FractionValue(b)
  {
    assert (b + [0])[..|b|] == b;
  }

  /** A signed number denotes the negation of the unsigned one. */
  lemma NegativeNegates(n: N)
    ensures NumValue(n.(negative := true)) == -NumValue(n.(negative := false))
  {
  }

  /** A number's magnitude is below `2^k`, `k` the length of its integer run (at least 1). */
  lemma NumValueBounds(n: N)
    ensures var k := |ExeD(Some(n.integer))|;
            var m := if n.negative then -NumValue(n) else NumValue(n);
            0.0 <= m < Pow2(k)
  {
    var ib := ExeD(Some(n.integer));
    var fb := ExeD(n.fraction);
    IntegerValueBounds(ib);
    FractionValueBounds(fb);
  }

  /** The source's operators: a multiplicative operator other than `*` divides. */
  predicate DivisionFreeS(s: S) {
    match s
    case SNS(_, _, s') => DivisionFreeS(s')
    case SNF(_, _, f) => DivisionFreeF(f)
    case SFS(f, _, s') => DivisionFreeF(f) && DivisionFreeS(s')
    case SF(f) => DivisionFreeF(f)
  }

  predicate DivisionFreeF(f: F) {
    match f
    case FNF(_, op, f') => op == '*' && DivisionFreeF(f')
    case FNE(_, op, e) => op == '*' && DivisionFreeE(e)
    case FEF(e, op, f') => op == '*' && DivisionFreeE(e) && DivisionFreeF(f')
    case FE(e) => DivisionFreeE(e)
  }

  predicate DivisionFreeE(e: E) {
    match e
    case EParen(s) => DivisionFreeS(s)
    case EN(_) => true
    case EVar(_) => true
  }

  /*
   * The source builds an `S` as an object whose fields `N`, `S`, `F` are
   * present or absent, and its tables test presence (`!!s.N && !!s.S`).
   * The predicates below are those presence tests on the constructors.
   */

  predicate SHasN(s: S) { s.SNS? || s.SNF? }
  predicate SHasS(s: S) { s.SNS? || s.SFS? }
  predicate SHasF(s: S) { s.SNF? || s.SFS? || s.SF? }

  predicate FHasN(f: F) { f.FNF? || f.FNE? }
  predicate FHasF(f: F) { f.FNF? || f.FEF? }
  predicate FHasE(f: F) { f.FNE? || f.FEF? || f.FE? }

  /**
   * The rows of `exeS`'s `returnOne` table in the source's order, each
   * guarded by the source's presence test. A row's value is consulted only
   * where its test holds; elsewhere it is 0. The last test, `!!s.F`, also
   * holds for the shapes of the second and third rows, so the order matters.
   */
  function SRows(): seq<Case<S, Number>> {
    [ Case((s: S) => SHasN(s) && SHasS(s),
           (s: S) => if SHasN(s) && SHasS(s) then Additive(s.op, Exact(NumValue(s.n)), ExeS(s.s)) else Exact(0.0)),
      Case((s: S) => SHasN(s) && SHasF(s),
           (s: S) => if SHasN(s) && SHasF(s) then Additive(s.op, Exact(NumValue(s.n)), ExeF(s.f)) else Exact(0.0)),
      Case((s: S) => SHasF(s) && SHasS(s),
           (s: S) => if SHasF(s) && SHasS(s) then Additive(s.op, ExeF(s.f), ExeS(s.s)) else Exact(0.0)),
      Case((s: S) => SHasF(s),
           (s: S) => if SHasF(s) then ExeF(s.f) else Exact(0.0)) ]
  }

  /** The rows of `exeF`'s table, guarded by the source's presence tests. */
  function FRows(): seq<Case<F, Number>> {
    [ Case((f: F) => FHasN(f) && FHasF(f),
           (f: F) => if FHasN(f) && FHasF(f) then Multiplicative(f.op, Exact(NumValue(f.n)), ExeF(f.f)) else Exact(0.0)),
      Case((f: F) => FHasN(f) && FHasE(f),
           (f: F) => if FHasN(f) && FHasE(f) then Multiplicative(f.op, Exact(NumValue(f.n)), ExeE(f.e)) else Exact(0.0)),
      Case((f: F) => FHasE(f) && FHasF(f),
           (f: F) => if FHasE(f) && FHasF(f) then Multiplicative(f.op, ExeE(f.e), ExeF(f.f)) else Exact(0.0)),
      Case((f: F) => FHasE(f),
           (f: F) => if FHasE(f) then ExeE(f.e) else Exact(0.0)) ]
  }

  /** The rows of `exeE`'s table (`!!e.S`, `!!e.N`): a name matches neither. */
  function ERows(): seq<Case<E, Number>> {
    [ Case((e: E) => e.EParen?, (e: E) => if e.EParen? then ExeS(e.s) else Exact(0.0)),
      Case((e: E) => e.EN?, (e: E) => if e.EN? then Exact(NumValue(e.n)) else Exact(0.0)) ]
  }

  /**
   * `exeS` is its table of presence tests applied with the default
   * 0: the first row whose test holds is the arm of the match.
   */
  lemma ExeSDispatch(s: S)
    ensures ExeS(s) == ReturnOne(SRows(), Exact(0.0), s)
  {
  }

  /** `exeF` is its table of presence tests applied with the default 0. */
  lemma ExeFDispatch(f: F)
    ensures ExeF(f) == ReturnOne(FRows(), Exact(0.0), f)
  {
  }

  /** `exeE` is its dispatch table applied with the default 0, which a name gets. */
  lemma ExeEDispatch(e: E)
    ensures ExeE(e) == ReturnOne(ERows(), Exact(0.0), e)
  {
  }
}
