/**
 * The comment filter of src/Utils.js (and BitCalculator.js): a two-state
 * scanner that drops every region opened and closed by a run of three quote
 * symbols, the delimiter runs included.
 */
module Comments {
  import opened Utils

  /** Either quote symbol may take part in a delimiter run, mixed freely. */
  predicate IsQuote(c: char) {
    c == '\'' || c == '"'
  }

  /**
   * Where the scanner of `isCommentToken` sees a delimiter run: three quote
   * symbols not followed by a fourth `'`. A following `"` does not spoil the
   * run, because `"` is only consumed while the counter is positive, but
   * `'` is consumed without limit.
   */
  predicate OpensComment(s: Stream) {
    |s| >= 3 && IsQuote(s[0]) && IsQuote(s[1]) && IsQuote(s[2]) && (|s| == 3 || s[3] != '\'')
  }

  /**
   * The loop of `isCommentToken`: advance past `'` while possible and past
   * `"` while the counter `n` is positive, decrementing `n` at each step;
   * the result is the final counter.
   */
  function QuoteScan(s: Stream, n: int): (r: int)
    ensures r <= n
    ensures Peek(s) == Some('\'') ==> r < n
    decreases |s|
  {
    if Peek(s) == Some('\'') || (Peek(s) == Some('"') && n > 0) then QuoteScan(Next(s), n - 1)
    else n
  }

  /** With the counter spent, the scan ends at zero exactly when no `'` comes next. */
  lemma QuoteScanSpent(s: Stream)
    ensures QuoteScan(s, 0) == 0 <==> Peek(s) != Some('\'')
  {
  }

  /** While the counter is positive, any quote symbol is consumed. */
  lemma QuoteScanStep(s: Stream, n: int)
    requires n > 0
    ensures QuoteScan(s, n) == if |s| > 0 && IsQuote(s[0]) then QuoteScan(s[1..], n - 1) else n
  {
  }

  /** The counter reaches exactly zero on precisely the delimiter runs. */
  lemma {:induction false} QuoteScanOpens(s: Stream)
    ensures QuoteScan(s, 3) == 0 <==> OpensComment(s)
  {
    QuoteScanStep(s, 3);
    if |s| > 0 && IsQuote(s[0]) {
      var s1 := s[1..];
      QuoteScanStep(s1, 2);
      if |s1| > 0 && IsQuote(s1[0]) {
        var s2 := s1[1..];
        QuoteScanStep(s2, 1);
        if |s2| > 0 && IsQuote(s2[0]) {
          var s3 := s2[1..];
          assert s3 == s[3..];
          QuoteScanSpent(s3);
        }
      }
    }
  }

  /** `isCommentToken(stream)`: does a delimiter run start here? */
  function IsCommentToken(s: Stream): (r: bool)
    ensures r <==> OpensComment(s)
  {
    QuoteScanOpens(s);
    QuoteScan(s, 3) == 0
  }

  /**
   * The quirk of the scanner: four `'` in a row do not open a comment, while
   * three quotes followed by a `"` do.
   */
  lemma QuoteRunQuirk(rest: Stream)
    ensures !IsCommentToken("''''" + rest)
    ensures IsCommentToken("'''\"" + rest)
    ensures IsCommentToken("\"\"\"\"" + rest)
  {
    assert ("''''" + rest)[3] == '\'';
    assert ("'''\"" + rest)[3] == '"';
    assert ("\"\"\"\"" + rest)[3] == '"';
  }

  /** The loop of `eat3tokens` with `n` steps to go: `next()` taken `n` times. */
  function EatTokens(s: Stream, n: nat): (r: Stream)
    ensures n <= |s| ==> r == s[n..]
    ensures n > |s| ==> r == []
    decreases n
  {
    if n == 0 then s else EatTokens(Next(s), n - 1)
  }

  /** `eat3tokens(stream)`: advances exactly three positions, or to the end. */
  function EatThreeTokens(s: Stream): (r: Stream)
    ensures |s| >= 3 ==> r == s[3..]
    ensures |s| < 3 ==> r == []
  {
    EatTokens(s, 3)
  }

  /** The scanner's state: copying symbols, or skipping a comment's body. */
  datatype State = Outside | Inside

  /**
   * One run of the `removeComments` loop from `state` to the end of `s`:
   * the symbols it pushes. Outside a comment a symbol that starts no delimiter
   * run is kept; a delimiter run flips the state and is dropped; inside a
   * comment everything else is dropped. In either state the scanner never
   * adds or reorders symbols.
   */
  function Strip(s: Stream, state: State): (r: Stream)
    ensures IsSubsequence(r, s)
    decreases |s|
  {
    if !HasNext(s) then []
    else
      var isComment := OpensComment(s);
      if !isComment && state == Outside then
        var tail := Strip(Next(s), Outside);
        assert ([Peek(s).value] + tail)[1..] == tail;
        [Peek(s).value] + tail
      else if !isComment then
        var tail := Strip(Next(s), Inside);
        SubsequenceOfTail(tail, s, 1);
        tail
      else
        var tail := Strip(EatThreeTokens(s), if state == Outside then Inside else Outside);
        SubsequenceOfTail(tail, s, 3);
        tail
  }

  /**
   * `removeComments(stream)`: the input with every comment region removed.
   * The result never adds or reorders symbols.
   */
  function RemoveComments(s: Stream): (r: Stream)
    ensures IsSubsequence(r, s)
  {
    Strip(s, Outside)
  }

  /** A text in which no delimiter run starts anywhere comes back unchanged. */
  lemma NoOpenerUnchanged(s: Stream)
    requires NoOpener(s, |s|)
    ensures RemoveComments(s) == s
  {
    assert s + [] == s;
    StripCopies(s, []);
  }

  /** A text without quote symbols has no comment to remove. */
  lemma QuoteFreeUnchanged(s: Stream)
    requires forall i | 0 <= i < |s| :: !IsQuote(s[i])
    ensures RemoveComments(s) == s
  {
    assert forall i | 0 <= i < |s| :: s[i..][0] == s[i];
    NoOpenerAt(s, |s|);
    NoOpenerUnchanged(s);
  }

  /** The `removeComments` loop as written: a stack of kept symbols and a state flag. */
  method RemoveCommentsLoop(input: Stream) returns (r: Stream)
    ensures r == RemoveComments(input)
  {
    var stack: Stream := [];
    var state := Outside;
    var s := input;
    while HasNext(s)
      invariant stack + Strip(s, state) == Strip(input, Outside)
      decreases |s|
    {
      var isComment := IsCommentToken(s);
      if !isComment && state == Outside {
        stack := stack + [Peek(s).value];
        s := Next(s);
      } else if isComment && state == Outside {
        s := EatThreeTokens(s);
        state := Inside;
      } else if !isComment && state == Inside {
        s := Next(s);
      } else {
        s := EatThreeTokens(s);
        state := Outside;
      }
    }
    r := stack;
  }

  /** No delimiter run starts at any of the first `n` positions of `s`. */
  predicate NoOpener(s: Stream, n: nat)
    decreases n
  {
    n == 0 || (|s| > 0 && !OpensComment(s) && NoOpener(s[1..], n - 1))
  }

  /** The same, position by position. */
  lemma {:induction false} NoOpenerAt(s: Stream, n: nat)
    requires n <= |s|
    ensures NoOpener(s, n) <==> forall i | 0 <= i < n :: !OpensComment(s[i..])
    decreases n
  {
    if n > 0 {
      NoOpenerAt(s[1..], n - 1);
      assert s[0..] == s;
      assert forall i | 0 <= i < n - 1 :: s[1..][i..] == s[i + 1..];
      assert forall i | 1 <= i < n :: s[i..] == s[1..][i - 1..];
    }
  }

  /** A symbol that starts no delimiter run is kept outside a comment and skipped inside one. */
  lemma StripPlainStep(s: Stream)
    requires |s| > 0 && !OpensComment(s)
    ensures Strip(s, Outside) == [s[0]] + Strip(s[1..], Outside)
    ensures Strip(s, Inside) == Strip(s[1..], Inside)
  {
  }

  /** A delimiter run is dropped and flips the state. */
  lemma StripOpenerStep(s: Stream)
    requires OpensComment(s)
    ensures Strip(s, Outside) == Strip(s[3..], Inside)
    ensures Strip(s, Inside) == Strip(s[3..], Outside)
  {
  }

  /** Symbols that start no delimiter run pass through while outside a comment. */
  lemma {:induction false} StripCopies(x: Stream, y: Stream)
    requires NoOpener(x + y, |x|)
    ensures Strip(x + y, Outside) == x + Strip(y, Outside)
    decreases |x|
  {
    if |x| > 0 {
      var s := x + y;
      assert s[1..] == x[1..] + y;
      assert Strip(s, Outside) == [x[0]] + Strip(x[1..] + y, Outside) by {
        StripPlainStep(s);
      }
      StripCopies(x[1..], y);
      assert x == [x[0]] + x[1..];
    } else {
      assert x + y == y;
    }
  }

  /** Inside a comment, symbols that start no delimiter run are skipped. */
  lemma {:induction false} StripSkips(c: Stream, y: Stream)
    requires NoOpener(c + y, |c|)
    ensures Strip(c + y, Inside) == Strip(y, Inside)
    decreases |c|
  {
    if |c| > 0 {
      var s := c + y;
      assert s[1..] == c[1..] + y;
      assert Strip(s, Inside) == Strip(c[1..] + y, Inside) by {
        StripPlainStep(s);
      }
      StripSkips(c[1..], y);
    } else {
      assert c + y == y;
    }
  }

  /** A delimiter run, a body free of runs and a closing run leave the scanner outside, past them. */
  lemma RegionSkipped(q1: Stream, c: Stream, q2: Stream, y: Stream)
    requires |q1| == 3 && |q2| == 3
    requires OpensComment(q1 + (c + (q2 + y)))
    requires NoOpener(c + (q2 + y), |c|)
    requires OpensComment(q2 + y)
    ensures Strip(q1 + (c + (q2 + y)), Outside) == Strip(y, Outside)
  {
    var rest := q1 + (c + (q2 + y));
    assert rest[3..] == c + (q2 + y);
    StripOpenerStep(rest);
    StripSkips(c, q2 + y);
    assert (q2 + y)[3..] == y;
    StripOpenerStep(q2 + y);
  }

  /**
   * A comment region disappears with both of its delimiter runs: text `x`,
   * an opening run `q1`, a body `c`, a closing run `q2` and the rest `y`
   * come out as `x` followed by whatever `y` comes out as.
   */
  lemma CommentRegionDropped(x: Stream, q1: Stream, c: Stream, q2: Stream, y: Stream)
    requires |q1| == 3 && |q2| == 3
    requires NoOpener(x + (q1 + (c + (q2 + y))), |x|)
    requires OpensComment(q1 + (c + (q2 + y)))
    requires NoOpener(c + (q2 + y), |c|)
    requires OpensComment(q2 + y)
    ensures RemoveComments(x + (q1 + (c + (q2 + y)))) == x + RemoveComments(y)
  {
    StripCopies(x, q1 + (c + (q2 + y)));
    RegionSkipped(q1, c, q2, y);
  }

  /** An opening run with no closing run drops the rest of the text, without error. */
  lemma UnterminatedCommentDropped(x: Stream, q: Stream, c: Stream)
    requires |q| == 3
    requires NoOpener(x + (q + c), |x|)
    requires OpensComment(q + c)
    requires NoOpener(c, |c|)
    ensures RemoveComments(x + (q + c)) == x
  {
    StripCopies(x, q + c);
    assert (q + c)[3..] == c;
    StripOpenerStep(q + c);
    assert c + [] == c;
    StripSkips(c, []);
    assert x + [] == x;
  }
}
