/**
 * The text of a syntax tree: the inverse the grammar of src/Parser.js is
 * checked against. Every printer takes the text that follows the tree and
 * returns the tree's own text in front of it, so printing a node is just
 * printing its children in front of one another.
 *
 * Not every tree prints to text that reads back as the same tree, because
 * the grammar is ambiguous and `or` settles each choice by the first
 * alternative that works: `1+1` is always `N op S`, never `F op S`; `1*1`
 * is always `N op F`; a name starting with `.` is read as a number. The
 * canonical trees below are the shapes those choices pick: every canonical
 * tree reads back as itself (module RoundTrip), and every tree the parser
 * builds is canonical unless it holds the empty name (module Canonicity).
 * What may follow a tree is limited to the symbols that can end it in a
 * program.
 */
module Printer {
  import opened Utils
  import opened Ast
  import Comments
  import Parser

  /** A number: its sign, its integer run, and `.` with its fraction run when present. */
  function PrintN(n: N, rest: Stream): Stream {
    var afterInteger := if n.fraction.Some? then ['.'] + (DigitsOf(n.fraction.value) + rest) else rest;
    var unsigned := DigitsOf(n.integer) + afterInteger;
    if n.negative then ['-'] + unsigned else unsigned
  }

  function PrintS(s: S, rest: Stream): Stream {
    match s
    case SNS(n, op, s') => PrintN(n, [op] + PrintS(s', rest))
    case SNF(n, op, f) => PrintN(n, [op] + PrintF(f, rest))
    case SFS(f, op, s') => PrintF(f, [op] + PrintS(s', rest))
    case SF(f) => PrintF(f, rest)
  }

  function PrintF(f: F, rest: Stream): Stream {
    match f
    case FNF(n, op, f') => PrintN(n, [op] + PrintF(f', rest))
    case FNE(n, op, e) => PrintN(n, [op] + PrintE(e, rest))
    case FEF(e, op, f') => PrintE(e, [op] + PrintF(f', rest))
    case FE(e) => PrintE(e, rest)
  }

  function PrintE(e: E, rest: Stream): Stream {
    match e
    case EParen(s) => ['('] + PrintS(s, [')'] + rest)
    case EN(n) => PrintN(n, rest)
    case EVar(v) => v.name + rest
  }

  /** An expression and its terminating `;`. */
  function PrintExpression(e: Expression, rest: Stream): Stream {
    match e
    case SExpr(s) => PrintS(s, [';'] + rest)
    case AssignExpr(a) => a.v.name + (['='] + PrintS(a.s, [';'] + rest))
  }

  function PrintProgram(p: Program, rest: Stream): Stream {
    match p
    case Empty => rest
    case Cons(e, p') => PrintExpression(e, PrintProgram(p', rest))
  }

  /** The text of a whole program. */
  function Show(p: Program): string {
    PrintProgram(p, [])
  }

  /** A run as `parseD` builds it: `null` for no bits, never an empty string. */
  predicate CanonicalD(d: D) {
    d.bits.None? || |d.bits.value| > 0
  }

  /** A number as `parseN` builds it: an unsigned number without a point has some bits. */
  predicate CanonicalN(n: N) {
    CanonicalD(n.integer) &&
    (n.fraction.Some? ==> CanonicalD(n.fraction.value)) &&
    (!n.negative && n.fraction.None? ==> n.integer.bits.Some?)
  }

  /** Every symbol may continue a name. */
  predicate IsName(name: string) {
    forall i | 0 <= i < |name| :: Parser.IsVarChar(name[i])
  }

  /** A name `parseE` reads as a name: not empty, and not starting with `.`, which starts a number. */
  predicate CanonicalVar(v: Var) {
    IsName(v.name) && |v.name| > 0 && v.name[0] != '.'
  }

  predicate CanonicalS(s: S) {
    match s
    case SNS(n, op, s') => CanonicalN(n) && op in Parser.AdditiveOps && CanonicalS(s')
    case SNF(_, _, _) => false
    case SFS(f, op, s') =>
      CanonicalF(f) && !(f.FE? && f.e.EN?) && op in Parser.AdditiveOps && CanonicalS(s')
    case SF(f) => CanonicalF(f)
  }

  predicate CanonicalF(f: F) {
    match f
    case FNF(n, op, f') => CanonicalN(n) && op in Parser.MultiplicativeOps && CanonicalF(f')
    case FNE(_, _, _) => false
    case FEF(e, op, f') => CanonicalE(e) && !e.EN? && op in Parser.MultiplicativeOps && CanonicalF(f')
    case FE(e) => CanonicalE(e)
  }

  predicate CanonicalE(e: E) {
    match e
    case EParen(s) => CanonicalS(s)
    case EN(n) => CanonicalN(n)
    case EVar(v) => CanonicalVar(v)
  }

  /** An assignment may name the empty variable, or one starting with `.`. */
  predicate CanonicalExpression(e: Expression) {
    match e
    case SExpr(s) => CanonicalS(s)
    case AssignExpr(a) => IsName(a.v.name) && CanonicalS(a.s)
  }

  predicate CanonicalProgram(p: Program) {
    match p
    case Empty => true
    case Cons(e, p') => CanonicalExpression(e) && CanonicalProgram(p')
  }

  /** What may follow an `S`: the end, `;` or `)`. */
  predicate FollowsS(rest: Stream) {
    rest == [] || rest[0] == ';' || rest[0] == ')'
  }

  /** What may follow an `F`: also an additive operator. */
  predicate FollowsF(rest: Stream) {
    FollowsS(rest) || rest[0] in Parser.AdditiveOps
  }

  /** What may follow an `E`: also a multiplicative operator. */
  predicate FollowsE(rest: Stream) {
    FollowsF(rest) || rest[0] in Parser.MultiplicativeOps
  }

  /** No quotes, spaces or newlines: text that comment removal and blank filtering leave alone. */
  predicate Plain(text: string) {
    forall i | 0 <= i < |text| :: !Comments.IsQuote(text[i]) && Parser.NotBlank(text[i])
  }

  /** Plain text reaches the grammar unchanged. */
  lemma PlainTextIsClean(text: string)
    requires Plain(text)
    ensures Parser.Clean(text) == text
  {
    Comments.QuoteFreeUnchanged(text);
    Utils.FilterKeepsAll(text, Parser.NotBlank);
  }

  lemma PlainConcat(a: string, b: string)
    requires Plain(a) && Plain(b)
    ensures Plain(a + b)
  {
    assert forall i | |a| <= i < |a + b| :: (a + b)[i] == b[i - |a|];
  }
}
