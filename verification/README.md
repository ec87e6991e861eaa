# BitCalculator, modelled in Dafny

BitCalculator is a calculator for numbers written in binary. Its source text
goes through the following stages:

- Comment regions are removed. A region opens and closes with a run of three
  quote symbols.
- Spaces and newlines are filtered out.
- A backtracking recursive-descent parser reads the text. The parser is built
  from a character `stream`, a `pair` of tree and rest, and an ordered-choice
  combinator `or`. It builds a syntax tree over this grammar:

  ```
  Program -> Expression Program | ε
  Expression -> Assign ; | S ;
  Assign -> Var = S
  S -> N op S | N op F | F op S | F
  F -> N op F | N op E | E op F | E
  E -> ( S ) | N | Var
  N -> D . D | - D . D | - D | D
  ```

- A tree-walking evaluator turns every expression into one output line,
  `"> " + value`.

The repository has two generations of this engine:

- **src/** (`Utils.js`, `Parser.js`, `Calculator.js`) is the newer grammar. It
  has names (`Var`) and assignments.
- **BitCalculator.js**, lines 1–507, is the older single-file grammar. It has
  no `Var` and no `Assign`. Its `parseN` accepts a number with no digits at
  all, and two of its error branches refer to a variable that is out of scope.

The Dafny modules follow the source layout:

| module | models |
|---|---|
| `Utils` (utils.dfy) | `stream` (over `seq<char>`), `pair`, `or`, `returnOne`, `filter` |
| `Comments` (comments.dfy) | `removeComments`, `isCommentToken`, `eat3tokens` |
| `Ast` (ast.dfy) | the tree: one datatype per grammar symbol, one constructor per alternative |
| `Parser` (parser.dfy) | `parse`, `parseProgram`, `parseExpression`, `parseAssign`, `parseVar`, `parseBinary`, `parseS/F/E/N/D` of src/Parser.js |
| `Calculator` (calculator.dfy) | `execute`, `exeProgram`, `exeExpression`, `exeS/F/E/N/D` of src/Calculator.js |
| `BitCalculator` (bitcalculator.dfy) | the older grammar of BitCalculator.js; its evaluator is the same `Calculator` |
| `Printer` (printer.dfy) | the inverse of the parser: the text of a tree, and the "canonical" trees, those that read back as themselves |
| `Lossless` (lossless.dfy), `BitLossless` (bitlossless.dfy) | parsing never loses or invents a symbol: printing the tree in front of the unread rest gives the input back |
| `RoundTrip` (roundtrip.dfy) | printing a canonical tree and parsing the text gives the same tree back |
| `Canonicity` (canonicity.dfy) | every tree the parser builds is canonical unless it holds the empty name, so parsing printed output is idempotent |
| `Examples` (examples.dfy) | worked inputs: values of sample numbers, `1-1-1;` nesting to the right, the old grammar's reading of `;` |

A grammar rule returns `Result<Pair<T, Stream>, ParseError>`. A JS `throw`
becomes a `Failure`. `or` catches every failure and returns the first success;
when all alternatives fail, it returns the last error. A value is
`Exact(real)` or `DivisionByZero`. `show` is the function that formats a
number into text, and it is a parameter.

Behaviours of the code that the model keeps as they are:

- **Integer bits.** `exeN` reads the integer bits from the last one towards
  the first, doubling the place value at each step
  (src/Calculator.js:101-106). `Calculator.IntegerValueAppend` shows that
  this is the usual binary value of the bits read first to last.
- **Comment delimiters.** `isCommentToken` consumes `'` without limit and
  `"` only while its counter is positive, and reports a delimiter only when
  the counter ends at exactly zero (src/Utils.js:91-99). So four `'` in a row
  are not a delimiter. `Comments.QuoteRunQuirk` pins both behaviours down.
- **Division by zero.** `exeF` divides with the JS `/`
  (src/Calculator.js:68-76), which yields `Infinity` or `NaN` for a zero
  divisor. `exeS` and `exeE` pass that value on, and it is printed. The
  model marks such a value `DivisionByZero` (see Left out).
- **Parse errors.** `parseProgram` catches the failure of its first
  alternative and falls back to the empty program (src/Parser.js:43-59), so
  `parse` always returns a program and drops whatever it could not read.
- **Assignments.** `exeExpression` evaluates the `S` field of its node
  (src/Calculator.js:34-36), and an assignment node has none, so the JS
  throws a TypeError. The model returns `None`, which `execute` propagates.
- **Names.** `exeE` has rows for `S` and `N` only (src/Calculator.js:86-91),
  so a name (`Var`) inside `E` evaluates to the `returnOne` default, 0.

## Model

| member | source | states |
|---|---|---|
| `Utils.Next` | src/Utils.js:20-39 | advancing gives a suffix exactly one symbol shorter; an exhausted stream stays empty |
| `Utils.PeekNext` | src/Utils.js:24-27 | `hasNext` and `isEmpty` are complements; a stream with a next symbol is that symbol followed by its advanced stream |
| `Utils.Filter` | src/Utils.js:30 | every symbol kept satisfies the predicate, and the result is an order-preserving subsequence of the input |
| `Utils.FilterCounts` | src/Utils.js:30 | each symbol occurs as often as in the input when kept and not at all otherwise (nothing reordered, duplicated or invented) |
| `Utils.FilterConcat` | src/Utils.js:30 | filtering distributes over concatenation |
| `Utils.FilterKeepsAll` | src/Utils.js:30 | a stream whose every symbol is kept comes out unchanged |
| `Utils.OrChoosesFirstSuccess` | src/Utils.js:41-51 | `or` succeeds iff some alternative succeeds, returns the first success, and otherwise fails with the last alternative's error |
| `Utils.Or` | src/Utils.js:41-51 | when `or` fails, it fails with the error of the last alternative, or with the accumulated error when there is none (the success side is `Utils.OrChoosesFirstSuccess`) |
| `Utils.OrOfTwo` | src/Utils.js:41-51 | two alternatives: the first if it succeeds, else the second |
| `Utils.OrOfThree` | src/Utils.js:41-51 | three alternatives resolve as an if-cascade in order |
| `Utils.OrOfFour` | src/Utils.js:41-51 | four alternatives resolve as an if-cascade in order |
| `Utils.ReturnOne` | src/Utils.js:58-66 | the value of the first row whose predicate holds, and the default when no row holds |
| `Comments.QuoteScan` | src/Utils.js:91-99 | the counter never grows, and a leading `'` always lowers it |
| `Comments.QuoteScanSpent` | src/Utils.js:91-99 | starting from 0 the counter stays 0 exactly when the stream does not start with `'` |
| `Comments.QuoteScanStep` | src/Utils.js:94-97 | one loop step: a leading quote that may be consumed lowers the counter by one and advances |
| `Comments.QuoteScanOpens` | src/Utils.js:91-99 | the scan from 3 ends at 0 iff three quotes start the stream and a fourth `'` does not follow |
| `Comments.IsCommentToken` | src/Utils.js:91-99 | true exactly at a delimiter run as characterised by `OpensComment` |
| `Comments.QuoteRunQuirk` | src/Utils.js:94 | four `'` are no delimiter, while `'''"` and four `"` are |
| `Comments.EatTokens` | src/Utils.js:101-109 | advancing `n` times drops the first `n` symbols, or empties a shorter stream |
| `Comments.EatThreeTokens` | src/Utils.js:101-109 | drops exactly three symbols, or empties a shorter stream |
| `Comments.RemoveComments` | src/Utils.js:68-89 | comment removal only deletes symbols: its output is a subsequence of the input |
| `Comments.Strip` | src/Utils.js:72-87 | in either state the scanner's output is an order-preserving subsequence of its input |
| `Comments.NoOpenerUnchanged` | src/Utils.js:68-89 | text with no delimiter run at any position comes out unchanged |
| `Comments.QuoteFreeUnchanged` | src/Utils.js:68-89 | text with no quote symbol comes out unchanged |
| `Comments.RemoveCommentsLoop` | src/Utils.js:68-89 | the two-state while loop with its output stack computes the recursive definition |
| `Comments.NoOpenerAt` | src/Utils.js:91-99 | the recursive "no run in the first n positions" agrees with the quantified statement |
| `Comments.StripPlainStep` | src/Utils.js:74-82 | outside a comment a non-delimiter symbol is copied; inside it is skipped |
| `Comments.StripOpenerStep` | src/Utils.js:77-86 | a delimiter run is consumed whole and flips the state |
| `Comments.StripCopies` | src/Utils.js:74-76 | outside a comment, text free of delimiter runs is copied verbatim in front of the rest's output |
| `Comments.StripSkips` | src/Utils.js:80-81 | inside a comment, text free of delimiter runs is dropped entirely |
| `Comments.RegionSkipped` | src/Utils.js:72-87 | an opening run, a body and a closing run leave the scanner outside, with nothing emitted |
| `Comments.CommentRegionDropped` | src/Utils.js:68-89 | a complete comment region vanishes with both delimiters; the text around it is kept |
| `Comments.UnterminatedCommentDropped` | src/Utils.js:68-89 | an opened comment that never closes drops the rest of the text, without error |
| `Parser.ParseOperator` | src/Parser.js:130-148 | succeeds iff the left rule succeeded and an operator of the set follows; the operator is consumed and the left tree kept |
| `Parser.OperatorSuffix` | src/Parser.js:130-148 | the stream after the operator is a strict suffix of the input |
| `Parser.Extend` | src/Parser.js:319-332 | prepending a bit to a run gives a present run whose digits are the bit followed by the old digits |
| `Parser.ParseD` | src/Parser.js:317-335 | never fails; reads the maximal bit run (input = digits + rest, rest does not start with a bit); no bits iff `null`, never an empty string |
| `Parser.ParseVar` | src/Parser.js:112-128 | never fails; reads the maximal run of name symbols (input = name + rest) |
| `Parser.PointNumber` | src/Parser.js:270-279 | `D . D` applies iff a point follows the bit run; it gives an unsigned number with a fraction |
| `Parser.NegativePointNumber` | src/Parser.js:280-294 | `- D . D` applies iff the input starts with `-` and a point follows the next run; otherwise it fails with the caller's error |
| `Parser.NegativeNumber` | src/Parser.js:295-303 | `- D` applies iff the input starts with `-`, giving a signed number without fraction |
| `Parser.DigitsNumber` | src/Parser.js:304-308 | a bare `D` applies iff a bit comes first (the empty check), or always when empty runs are allowed |
| `Parser.ParseN` | src/Parser.js:268-310 | succeeds iff the input starts with a bit, `.` or `-`, and then consumes at least one symbol |
| `Parser.ParseS` | src/Parser.js:155-190 | never fails; the rest is a suffix of the input |
| `Parser.ParseSNS` | src/Parser.js:158-166 | `N op S`: the rest, when it applies, is a suffix |
| `Parser.ParseSNF` | src/Parser.js:167-175 | `N op F`: the rest, when it applies, is a suffix |
| `Parser.ParseSFS` | src/Parser.js:176-184 | `F op S`: the rest, when it applies, is a suffix |
| `Parser.ParseSF` | src/Parser.js:185-188 | a lone `F` always applies |
| `Parser.ParseF` | src/Parser.js:197-232 | never fails; the rest is a suffix of the input |
| `Parser.ParseFNF` | src/Parser.js:200-208 | `N op F`: the rest, when it applies, is a suffix |
| `Parser.ParseFNE` | src/Parser.js:209-217 | `N op E`: the rest, when it applies, is a suffix |
| `Parser.ParseFEF` | src/Parser.js:218-226 | `E op F`: the rest, when it applies, is a suffix |
| `Parser.ParseFE` | src/Parser.js:227-230 | a lone `E` always applies |
| `Parser.ParseE` | src/Parser.js:239-261 | never fails, because the name alternative accepts the empty name |
| `Parser.ParseEParen` | src/Parser.js:241-251 | `( S )`: the rest, when it applies, is a suffix |
| `Parser.ParseEN` | src/Parser.js:252-255 | a number atom applies exactly when `parseN` does |
| `Parser.ParseEVar` | src/Parser.js:256-259 | a name atom always applies |
| `Parser.ParseSChoice` | src/Parser.js:155-190 | which shape `S` takes: `N op S` whenever a number and an additive operator lead; never `N op F`, because `N op S` subsumes it |
| `Parser.ParseFChoice` | src/Parser.js:197-232 | which shape `F` takes: `N op F` whenever a number and a multiplicative operator lead; never `N op E` |
| `Parser.ParseEChoice` | src/Parser.js:239-261 | which atom `E` takes: parenthesised when `(` opens a closed `S`, else a number when one starts, else a name |
| `Parser.ParseAssign` | src/Parser.js:101-110 | succeeds iff the maximal name is followed by `=`; the name is that run and at least one symbol is consumed |
| `Parser.AssignToEmptyName` | src/Parser.js:101-128 | text starting with `=` is an assignment to the empty name |
| `Parser.ParseExpression` | src/Parser.js:66-99 | succeeds iff an assignment or an `S` is followed by `;`; the assignment wins; the `;` is consumed |
| `Parser.ParseProgram` | src/Parser.js:43-59 | never fails; stops exactly where no expression parses; empty iff the first expression fails |
| `Parser.ParseProgramStep` | src/Parser.js:43-59 | one expression followed by the program of its rest, or the terminal node on the untouched input |
| `Parser.Clean` | src/Parser.js:30-33 | the grammar sees no space or newline, and only symbols of the text in their order |
| `Parser.Parse` | src/Parser.js:29-36 | the program is empty iff no expression parses at the start of the cleaned text; otherwise it starts with that expression |
| `Calculator.ExeD` | src/Calculator.js:122-124 | one 0/1 value per bit, in order; a missing, `null` or empty run reads as the single bit 0 |
| `Calculator.SumIntegerBits` | src/Calculator.js:103-106 | the loop from the last bit with a doubling place value computes the binary integer value |
| `Calculator.SumFractionBits` | src/Calculator.js:109-112 | the loop with a halving place value from 1/2 computes the binary fraction value |
| `Calculator.ExeN` | src/Calculator.js:98-115 | integer part plus fraction part, negated for a signed number |
| `Calculator.ExeProgram` | src/Calculator.js:24-36 | defined iff every expression is a plain `S`; then one `"> " + value` line per expression, in program order |
| `Calculator.Execute` | src/Calculator.js:15-18 | fails iff some expression is an assignment; `"Empty"` exactly for the empty program; otherwise the lines joined by newlines, starting with `"> "` |
| `Calculator.Join` | src/Calculator.js:17 | `join("\n")`: empty for no lines; otherwise its length is the lines' total plus one separator between neighbours, and it starts with the first line and ends with the last |
| `Calculator.IntegerValueBounds` | src/Calculator.js:103-106 | `k` bits read as an integer lie between 0 and `2^k - 1` |
| `Calculator.FractionValueBounds` | src/Calculator.js:109-112 | `k` fraction bits lie between 0 and `1 - 2^-k`, so below 1 |
| `Calculator.PowersPositive` | src/Calculator.js:103-112 | the place values stay positive |
| `Calculator.IntegerValueAppend` | src/Calculator.js:103-106 | appending a bit doubles the value and adds the bit (Horner's rule), so the loop from the end is the usual binary reading |
| `Calculator.LeadingZeroIgnored` | src/Calculator.js:103-106 | leading zero bits do not change the integer part |
| `Calculator.FractionValuePrepend` | src/Calculator.js:109-112 | prepending a fraction bit halves the value and adds half the bit |
| `Calculator.TrailingZeroIgnored` | src/Calculator.js:109-112 | trailing zero bits do not change the fraction part |
| `Calculator.NegativeNegates` | src/Calculator.js:114 | the sign flag negates the value; the fact is immediate from the last line of `NumValue` |
| `Calculator.NumValueBounds` | src/Calculator.js:98-115 | a number's magnitude is below `2^k`, where `k` is the length of its integer run |
| `Calculator.ExeSDispatch` | src/Calculator.js:42-58 | the evaluator's match on the `S` constructor agrees with `exeS`'s table of field-presence tests (`!!s.N && !!s.S`, ...) taken in order under `returnOne` |
| `Calculator.ExeFDispatch` | src/Calculator.js:64-80 | the evaluator's match on the `F` constructor agrees with `exeF`'s table of field-presence tests taken in order |
| `Calculator.ExeEDispatch` | src/Calculator.js:86-91 | the evaluator's match on the `E` constructor agrees with `exeE`'s table (`!!e.S`, `!!e.N`); a name falls to the default 0 |
| `Calculator.ExeS` | src/Calculator.js:42-58 | an `S` with no division evaluates to a finite value; its link to the source's table is `Calculator.ExeSDispatch` |
| `Calculator.ExeF` | src/Calculator.js:64-80 | an `F` with no division evaluates to a finite value; its link to the source's table is `Calculator.ExeFDispatch` |
| `Calculator.ExeE` | src/Calculator.js:86-91 | an `E` with no division evaluates to a finite value; its link to the source's table is `Calculator.ExeEDispatch` |
| `Calculator.ExeExpression` | src/Calculator.js:34-36 | gives a value exactly for an `S` expression; an assignment has no `S` field and gives none |
| `Calculator.Div` | src/Calculator.js:68-76 | the quotient is exact exactly when both operands are exact and the divisor is non-zero, and then the quotient times the divisor is the dividend |
| `BitCalculator.ParseN` | BitCalculator.js:319-360 | never fails: it agrees with the newer `parseN` where that succeeds, and reads the empty number without consuming anything elsewhere |
| `BitCalculator.ParseS` | BitCalculator.js:210-245 | never fails, has no name in its tree, and leaves a suffix |
| `BitCalculator.ParseSNS` | BitCalculator.js:213-221 | `N op S` leaves a suffix and builds a name-free tree |
| `BitCalculator.ParseSNF` | BitCalculator.js:222-230 | `N op F` leaves a suffix and builds a name-free tree |
| `BitCalculator.ParseSFS` | BitCalculator.js:231-239 | `F op S` leaves a suffix and builds a name-free tree |
| `BitCalculator.ParseSF` | BitCalculator.js:240-243 | a lone `F` always applies |
| `BitCalculator.ParseF` | BitCalculator.js:252-287 | never fails, has no name in its tree, and leaves a suffix |
| `BitCalculator.ParseFNF` | BitCalculator.js:255-263 | `N op F` leaves a suffix and builds a name-free tree |
| `BitCalculator.ParseFNE` | BitCalculator.js:264-272 | `N op E` leaves a suffix and builds a name-free tree |
| `BitCalculator.ParseFEF` | BitCalculator.js:273-281 | `E op F` leaves a suffix and builds a name-free tree |
| `BitCalculator.ParseFE` | BitCalculator.js:282-285 | a lone `E` always applies |
| `BitCalculator.ParseE` | BitCalculator.js:294-312 | never fails, because the number alternative accepts the empty number |
| `BitCalculator.ParseEParen` | BitCalculator.js:296-306 | every failure of the parenthesis branch is the out-of-scope `ReferenceError` |
| `BitCalculator.ParseEN` | BitCalculator.js:307-310 | the number atom always applies |
| `BitCalculator.ParseSChoice` | BitCalculator.js:210-245 | the old `S` picks its shape like the new one and never builds `N op F` |
| `BitCalculator.ParseFChoice` | BitCalculator.js:252-287 | the old `F` picks its shape like the new one and never builds `N op E` |
| `BitCalculator.ParseEChoice` | BitCalculator.js:294-312 | parenthesised when `(` opens a closed `S`, otherwise a number (possibly empty) |
| `BitCalculator.ParseExpression` | BitCalculator.js:169-183 | succeeds iff the `S` is followed by `;`, which is consumed |
| `BitCalculator.ParseProgram` | BitCalculator.js:146-162 | never fails, stops exactly where no expression parses, and builds no assignment or name |
| `BitCalculator.Parse` | BitCalculator.js:132-139 | empty iff no expression parses at the start of the cleaned text; never contains a name |
| `BitCalculator.VarFreeProgramHasNoAssign` | BitCalculator.js:146-183 | a program of the old grammar consists of plain `S` expressions only |
| `BitCalculator.ExecuteNeverThrows` | BitCalculator.js:398-419 | evaluating any text parsed by the old grammar produces output and never throws |
| `Printer.PlainTextIsClean` | src/Parser.js:29-36 | text with no quote, space or newline reaches the grammar unchanged |
| `Lossless.PointLossless` | src/Parser.js:270-279 | `D . D` reads the text of the number it builds and nothing else |
| `Lossless.NegativePointLossless` | src/Parser.js:280-294 | `- D . D` reads the text of the number it builds and nothing else |
| `Lossless.NegativeLossless` | src/Parser.js:295-303 | `- D` reads the text of the number it builds and nothing else |
| `Lossless.DigitsLossless` | src/Parser.js:304-308 | a bare `D` reads the text of the number it builds and nothing else |
| `Lossless.NumberLossless` | src/Parser.js:268-310 | the input is the printed number followed by the unread rest |
| `Lossless.SLossless` | src/Parser.js:155-190 | the input is the printed `S` followed by the unread rest: parsing loses or invents no symbol |
| `Lossless.SNSLossless` | src/Parser.js:158-166 | the same for the `N op S` alternative |
| `Lossless.SNFLossless` | src/Parser.js:167-175 | the same for the `N op F` alternative |
| `Lossless.SFSLossless` | src/Parser.js:176-184 | the same for the `F op S` alternative |
| `Lossless.SFLossless` | src/Parser.js:185-188 | the same for a lone `F` |
| `Lossless.FLossless` | src/Parser.js:197-232 | the input is the printed `F` followed by the unread rest |
| `Lossless.FNFLossless` | src/Parser.js:200-208 | the same for the `N op F` alternative |
| `Lossless.FNELossless` | src/Parser.js:209-217 | the same for the `N op E` alternative |
| `Lossless.FEFLossless` | src/Parser.js:218-226 | the same for the `E op F` alternative |
| `Lossless.FELossless` | src/Parser.js:227-230 | the same for a lone `E` |
| `Lossless.ELossless` | src/Parser.js:239-261 | the input is the printed `E` followed by the unread rest |
| `Lossless.EParenLossless` | src/Parser.js:241-251 | the same for a parenthesised `S`, both parentheses included |
| `Lossless.AssignLossless` | src/Parser.js:101-110 | an assignment reads its name, `=` and its `S`, and nothing else |
| `Lossless.ExpressionLossless` | src/Parser.js:66-99 | an expression reads its tree and the `;`, and nothing else |
| `Lossless.ProgramLossless` | src/Parser.js:43-59 | the cleaned input is the printed program followed by the text the program rule leaves |
| `Lossless.ParseDropsOnlyTrailer` | src/Parser.js:29-59 | `parse` discards only a trailer at which no expression parses |
| `BitLossless.NumberLossless` | BitCalculator.js:319-360 | the old `parseN`, the empty number included, reads exactly the text of the number it builds |
| `BitLossless.SLossless` | BitCalculator.js:210-245 | the input is the printed `S` followed by the unread rest |
| `BitLossless.SNSLossless` | BitCalculator.js:213-221 | the same for `N op S` |
| `BitLossless.SNFLossless` | BitCalculator.js:222-230 | the same for `N op F` |
| `BitLossless.SFSLossless` | BitCalculator.js:231-239 | the same for `F op S` |
| `BitLossless.SFLossless` | BitCalculator.js:240-243 | the same for a lone `F` |
| `BitLossless.FLossless` | BitCalculator.js:252-287 | the input is the printed `F` followed by the unread rest |
| `BitLossless.FNFLossless` | BitCalculator.js:255-263 | the same for `N op F` |
| `BitLossless.FNELossless` | BitCalculator.js:264-272 | the same for `N op E` |
| `BitLossless.FEFLossless` | BitCalculator.js:273-281 | the same for `E op F` |
| `BitLossless.FELossless` | BitCalculator.js:282-285 | the same for a lone `E` |
| `BitLossless.ELossless` | BitCalculator.js:294-312 | the input is the printed `E` followed by the unread rest |
| `BitLossless.EParenLossless` | BitCalculator.js:296-306 | the same for a parenthesised `S` |
| `BitLossless.ExpressionLossless` | BitCalculator.js:169-183 | an expression reads its `S` and the `;`, and nothing else |
| `BitLossless.ProgramLossless` | BitCalculator.js:146-162 | the input is the printed program followed by the text the program rule leaves |
| `BitLossless.ParseDropsOnlyTrailer` | BitCalculator.js:132-162 | `parse` discards only a trailer at which no expression parses |
| `RoundTrip.MaximalRunUnique` | src/Parser.js:317-335 | a text splits in only one way into a maximal run and a rest that does not continue it |
| `RoundTrip.RoundTripD` | src/Parser.js:317-335 | a bit run followed by a non-bit reads back as that run |
| `RoundTrip.RoundTripVar` | src/Parser.js:112-128 | a name followed by a non-name symbol reads back as that name |
| `RoundTrip.PointNeedsUnsigned` | src/Parser.js:270-279 | the `D . D` alternative fails on text starting with `-` |
| `RoundTrip.RoundTripPoint` | src/Parser.js:270-279 | a printed unsigned number with a point reads back as itself |
| `RoundTrip.RoundTripNegativePoint` | src/Parser.js:280-294 | a printed signed number with a point reads back as itself |
| `RoundTrip.RoundTripNegative` | src/Parser.js:295-303 | a printed signed number without a point reads back as itself |
| `RoundTrip.RoundTripDigits` | src/Parser.js:304-308 | a printed bare run reads back as itself |
| `RoundTrip.RoundTripN` | src/Parser.js:268-310 | a canonical number printed before a symbol that cannot continue it reads back as itself, with the same rest |
| `RoundTrip.NoNumberAhead` | src/Parser.js:252-259 | text printed from a parenthesis or a name does not start a number |
| `RoundTrip.RoundTripS` | src/Parser.js:155-190 | a canonical `S` printed before an end, `;` or `)` reads back as itself |
| `RoundTrip.RoundTripSNS` | src/Parser.js:158-166 | the same for `N op S` |
| `RoundTrip.RoundTripSFS` | src/Parser.js:176-184 | the same for `F op S`, whose `F` is not a lone number |
| `RoundTrip.RoundTripSF` | src/Parser.js:185-188 | the same for a lone `F` |
| `RoundTrip.RoundTripF` | src/Parser.js:197-232 | a canonical `F` printed before a symbol that may follow it reads back as itself |
| `RoundTrip.RoundTripFNF` | src/Parser.js:200-208 | the same for `N op F` |
| `RoundTrip.RoundTripFEF` | src/Parser.js:218-226 | the same for `E op F`, whose `E` is not a number |
| `RoundTrip.RoundTripFE` | src/Parser.js:227-230 | the same for a lone `E` |
| `RoundTrip.RoundTripE` | src/Parser.js:239-261 | a canonical `E` printed before a symbol that may follow it reads back as itself |
| `RoundTrip.RoundTripEParen` | src/Parser.js:241-251 | the same for a parenthesised `S` |
| `RoundTrip.RoundTripEN` | src/Parser.js:252-255 | the same for a number |
| `RoundTrip.RoundTripEVar` | src/Parser.js:256-259 | the same for a non-empty name not starting with `.` |
| `RoundTrip.NoAssignAheadFails` | src/Parser.js:101-110 | where no `=` ends the leading name, the assignment alternative fails |
| `RoundTrip.RoundTripExpression` | src/Parser.js:66-99 | a canonical expression with its `;` reads back as itself |
| `RoundTrip.RoundTripTerm` | src/Parser.js:83-97 | a printed `S` with `;` is not taken for an assignment and reads back as itself |
| `RoundTrip.TermIsNoAssignment` | src/Parser.js:68-82 | the assignment alternative fails on the text of an `S` |
| `RoundTrip.RoundTripAssignment` | src/Parser.js:68-82 | a printed assignment reads back as the same name and `S` |
| `RoundTrip.RoundTripProgram` | src/Parser.js:43-59 | a canonical program printed before a trailer at which no expression parses reads back as itself, with that trailer |
| `RoundTrip.NothingParsesEmpty` | src/Parser.js:66-99 | no expression parses on the empty stream |
| `RoundTrip.ParsePrintsBack` | src/Parser.js:29-36 | `parse` of the text of a canonical program without quotes or blanks is that program |
| `Canonicity.ParseNCanonical` | src/Parser.js:268-310 | every number `parseN` builds is canonical |
| `Canonicity.NumberAtom` | src/Parser.js:239-261 | an `E` that is a number is exactly the tree and rest `parseN` gives there |
| `Canonicity.NumberTerm` | src/Parser.js:197-232 | an `F` that is a lone number ends where `parseN` ends there |
| `Canonicity.ParseSCanonical` | src/Parser.js:155-190 | an `S` that `parseS` builds with no empty name is canonical |
| `Canonicity.ParseFCanonical` | src/Parser.js:197-232 | an `F` that `parseF` builds with no empty name is canonical |
| `Canonicity.ParseECanonical` | src/Parser.js:239-261 | an `E` that `parseE` builds with no empty name is canonical; a name never starts with `.` |
| `Canonicity.ParseExpressionCanonical` | src/Parser.js:66-99 | an expression `parseExpression` builds whose `S` holds no empty name is canonical |
| `Canonicity.ParseProgramCanonical` | src/Parser.js:43-59 | a program `parseProgram` builds with no empty name is canonical |
| `Canonicity.ParseIsCanonical` | src/Parser.js:29-36 | every program `parse` returns is canonical unless it holds the empty name |
| `Canonicity.ReparseIsIdentity` | src/Parser.js:29-36 | parsing the printed text of a parsed program gives the same program, when it holds no empty name and its text no quote or blank |
| `Examples.MinusQuarter` | src/Calculator.js:98-115 | `-0.01` denotes -0.25 |
| `Examples.NearlyPi` | src/Calculator.js:98-115 | `11.0010010` denotes 3.140625 |
| `Examples.EmptyNumberIsZero` | BitCalculator.js:481-498 | the old grammar's empty number denotes 0 |
| `Examples.OldAtomBeforeSemicolon` | BitCalculator.js:355-358 | before `;`, the old grammar reads an empty number and consumes nothing |
| `Examples.OldTermBeforeSemicolon` | BitCalculator.js:252-287 | before `;`, the old `F` is the lone empty number |
| `Examples.OldRulesBeforeSemicolon` | BitCalculator.js:210-245 | before `;`, the old `S` is the lone empty number |
| `Examples.SemicolonAloneParses` | BitCalculator.js:132-183 | the old grammar parses `;` alone as one expression, the empty number |
| `Examples.SemicolonAloneEvaluates` | BitCalculator.js:398-419 | that program prints one line with the value 0 |
| `Examples.LoneExpression` | src/Calculator.js:15-36 | a one-expression program prints `"> "` and its value, without a separator |
| `Examples.LoneNumber` | src/Calculator.js:15-36 | a one-number program prints `"> "` and that number's value |
| `Examples.OneBefore` | src/Parser.js:268-310 | `1` followed by a non-bit reads as the number 1 |
| `Examples.OneBeforeSemicolon` | src/Parser.js:155-190 | `1;` gives the lone `S` holding the number 1 |
| `Examples.OneThenMinus` | src/Parser.js:130-148 | `1-` gives the number 1 and the operator `-` |
| `Examples.OneMinus` | src/Parser.js:158-166 | `1-` before an `S` gives `N op S` |
| `Examples.ChainTree` | src/Parser.js:155-190 | `1-1-1` nests to the right: `1-(1-1)` |
| `Examples.BitStartsNoAssignment` | src/Parser.js:101-128 | text starting with a bit is never an assignment |
| `Examples.ChainExpression` | src/Parser.js:66-99 | `1-1-1;` is one right-nested expression |
| `Examples.ChainIsClean` | src/Parser.js:29-36 | `1-1-1;` passes comment and blank removal unchanged |
| `Examples.ChainProgram` | src/Parser.js:43-59 | the program of `1-1-1;` holds exactly that expression |
| `Examples.ChainNestsRight` | src/Parser.js:29-36 | `parse("1-1-1;")` is the right-nested single expression |
| `Examples.OneIsOne` | src/Calculator.js:98-115 | the number `1` denotes 1 |
| `Examples.ChainValue` | src/Calculator.js:42-58 | the right-nested `1-(1-1)` evaluates to 1, not the left-associative -1 |
| `Examples.ChainEvaluatesToOne` | src/Calculator.js:15-18 | running `1-1-1;` prints the value 1 |

## Left out

- Floating point. JS numbers are IEEE doubles, while the model computes with exact reals. This removes rounding, and removes the choice between a fixed-precision and an arbitrary-precision backend.
- Division by zero. Every division by zero, and every operation on its result, becomes `DivisionByZero`. In JS `1/0` is `Infinity` and `0/0` is `NaN`, and these keep computing: `1/(1/0)` is `0` in JS but `DivisionByZero` here.
- Number formatting. How a value is turned into text (`toString`) is the parameter `show`, so the model says nothing about the digits printed.
- The parse-tree renderer (JSON dump), `toString` of a stream and error-message texts. They are debugging output; a failure is just `ParseFailure`/`ReferenceError` without its message.
- index.js (editor UI), vs-monaco/basic-languages/yaml/yaml.js (syntax colouring) and BitCalculator.js:509-628. These are UI and glue outside the engine.
- Exceptions as control flow. Backtracking is written as result values, and `or` evaluates all its alternatives before picking one. The result is the same because every rule is pure. The cost of backtracking and the depth of the JS call stack are not modelled.
- Assignments. They are parsed but never evaluated: `Calculator.ExeExpression` returns `None` where the JS throws a TypeError. No symbol table exists in the source.
- The `stream` object. It is a `seq<char>`, and `peek`/`next`/`hasNext`/`isEmpty` are functions on it.
- `parseBinary`. It is split in two: `Parser.ParseOperator` reads the left result and the operator, and the caller runs the right rule. A rule passed as a function value would hide termination.
- `Comments.IsCommentToken`. Its loop is modelled by the recursive `QuoteScan`. The scanner `Strip` branches on the closed form `OpensComment`, which is proved equal to it.
- Round trip of the older grammar. For BitCalculator.js only the lossless direction (`BitLossless`) is proved. Its canonical trees differ: the empty number is allowed, and `N` never fails.
- `RoundTrip.RoundTripEVar`. It is stated for names that are not empty and do not start with `.`, because the parser reads such names differently. The empty name reads as the empty name only before a symbol that ends `E`, and a `.` name reads as a number.
- `RoundTrip.RoundTripS`. It covers canonical trees only: `N op F` and `N op E` shapes are never produced by the parser (see `Parser.ParseSChoice`, `Parser.ParseFChoice`).
- `RoundTrip.ParsePrintsBack`. It needs text without quotes, spaces or newlines, because the printer does not write comments or blanks.
- Trees with the empty name. The parser builds the empty name inside an `S` (from `;` alone), which prints as nothing and so does not read back as itself. `Canonicity` proves canonicity only for trees without it.
- `Utils.Or`: its own contract states only the failure side. The success side (first success, and success iff some alternative succeeds) is `Utils.OrChoosesFirstSuccess`, because stating it on the function makes every grammar rule built on `or` too costly to verify.
