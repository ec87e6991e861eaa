/**
 * The abstract syntax tree both parsers build: one datatype per grammar
 * symbol, one constructor per alternative, so no node is ever half-filled.
 * In the source each node is an object tagged by `type` whose populated
 * fields tell the alternatives apart.
 */
module Ast {
  import opened Utils

  /** A symbol a `D` run accepts. */
  type BitChar = c: char | c == '0' || c == '1' witness '0'

  /** `{type: "D", int}`: the bits of a run, or `None` (JS `null`) for a run of no bits. */
  datatype D = D(bits: Option<seq<BitChar>>)

  /**
   * `{type: "N", int, decimal, negative}`: a binary number. `fraction` is
   * absent for the forms written without a point; `negative` stands for the
   * field being `true` rather than absent.
   */
  datatype N = N(integer: D, fraction: Option<D>, negative: bool)

  /** `{type: "var", name}`. */
  datatype Var = Var(name: string)

  /** The additive level: `N op S`, `N op F`, `F op S` or a lone `F`. */
  datatype S =
    | SNS(n: N, op: char, s: S)
    | SNF(n: N, op: char, f: F)
    | SFS(f: F, op: char, s: S)
    | SF(f: F)

  /** The multiplicative level: `N op F`, `N op E`, `E op F` or a lone `E`. */
  datatype F =
    | FNF(n: N, op: char, f: F)
    | FNE(n: N, op: char, e: E)
    | FEF(e: E, op: char, f: F)
    | FE(e: E)

  /** The atomic level: a parenthesised `S`, a number, or a name. */
  datatype E = EParen(s: S) | EN(n: N) | EVar(v: Var)

  /** `{type: "assign", Var, S}`. */
  datatype Assign = Assign(v: Var, s: S)

  /** `{type: "expression", Assign}` or `{type: "expression", S}`. */
  datatype Expression = AssignExpr(assign: Assign) | SExpr(s: S)

  /**
   * `{type: "program", expression, program}`; `Empty` is the terminal node
   * whose two fields are both `null`.
   */
  datatype Program = Empty | Cons(expression: Expression, program: Program)

  /** The error a grammar rule throws; `ReferenceError` arises only in BitCalculator.js. */
  datatype ParseError = ParseFailure | ReferenceError

  /** What a grammar rule returns: `pair(tree, rest)`, or the error it throws. */
  type Parsed<T> = Result<Pair<T, Stream>, ParseError>

  /** The bits of a run, empty for `null`. */
  function DigitsOf(d: D): seq<BitChar> {
    if d.bits.Some? then d.bits.value else []
  }

  /** The expressions of a program's cons chain, in program order. */
  function Expressions(p: Program): seq<Expression> {
    match p
    case Empty => []
    case Cons(e, rest) => [e] + Expressions(rest)
  }

  /** Trees of the older grammar mention no name anywhere. */
  predicate VarFreeS(s: S) {
    match s
    case SNS(_, _, s') => VarFreeS(s')
    case SNF(_, _, f) => VarFreeF(f)
    case SFS(f, _, s') => VarFreeF(f) && VarFreeS(s')
    case SF(f) => VarFreeF(f)
  }

  predicate VarFreeF(f: F) {
    match f
    case FNF(_, _, f') => VarFreeF(f')
    case FNE(_, _, e) => VarFreeE(e)
    case FEF(e, _, f') => VarFreeE(e) && VarFreeF(f')
    case FE(e) => VarFreeE(e)
  }

  predicate VarFreeE(e: E) {
    match e
    case EParen(s) => VarFreeS(s)
    case EN(_) => true
    case EVar(_) => false
  }

  /** A program of the older grammar: bare `S` expressions without names. */
  predicate VarFreeProgram(p: Program) {
    match p
    case Empty => true
    case Cons(e, rest) => e.SExpr? && VarFreeS(e.s) && VarFreeProgram(rest)
  }
}
