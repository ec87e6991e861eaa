/**
 * The utility layer of the calculator (src/Utils.js, and its copy at the top of
 * BitCalculator.js): results and pairs, the immutable character stream, the
 * ordered-alternative combinator `or` and the dispatcher `returnOne`.
 */
module Utils {

  /** A value that may be absent (JS `undefined` / `null`). */
  datatype Option<+T> = None | Some(value: T)

  /** Outcome of a step that can throw: a value, or the error it throws. */
  datatype Result<+T, +E> = Success(value: T) | Failure(error: E) {

    predicate IsFailure() {
      Failure?
    }

    function PropagateFailure<U>(): Result<U, E>
      requires Failure?
    {
      Failure(error)
    }

    function Extract(): T
      requires Success?
    {
      value
    }
  }

  /** `pair(a, b)`: what a grammar rule built, and the stream left after it. */
  datatype Pair<+A, +B> = Pair(left: A, right: B)

  /** The character stream: a value, never mutated; advancing builds a new one. */
  type Stream = seq<char>

  /** `t` is what is left of `s` after dropping some prefix of it. */
  predicate IsSuffix<T(==)>(t: seq<T>, s: seq<T>) {
    |t| <= |s| && t == s[|s| - |t|..]
  }

  lemma SuffixTransitive<T>(a: seq<T>, b: seq<T>, c: seq<T>)
    requires IsSuffix(a, b) && IsSuffix(b, c)
    ensures IsSuffix(a, c)
  {
    assert c[|c| - |b|..][|b| - |a|..] == c[|c| - |a|..];
  }

  /** `a` is obtained from `b` by deleting symbols, without reordering. */
  predicate IsSubsequence<T(==)>(a: seq<T>, b: seq<T>)
    decreases |b|
  {
    |a| == 0 ||
    (|b| > 0 && ((a[0] == b[0] && IsSubsequence(a[1..], b[1..])) || IsSubsequence(a, b[1..])))
  }

  lemma {:induction false} SubsequenceOfTail<T>(a: seq<T>, b: seq<T>, k: nat)
    requires k <= |b|
    requires IsSubsequence(a, b[k..])
    ensures IsSubsequence(a, b)
    decreases k
  {
    if k > 0 {
      assert b[1..][k - 1..] == b[k..];
      SubsequenceOfTail(a, b[1..], k - 1);
    }
  }

  lemma {:induction false} SubsequenceTransitive<T>(a: seq<T>, b: seq<T>, c: seq<T>)
    requires IsSubsequence(a, b) && IsSubsequence(b, c)
    ensures IsSubsequence(a, c)
    decreases |c|
  {
    if |a| > 0 {
      if b[0] == c[0] && IsSubsequence(b[1..], c[1..]) {
        if a[0] == b[0] && IsSubsequence(a[1..], b[1..]) {
          SubsequenceTransitive(a[1..], b[1..], c[1..]);
        } else {
          SubsequenceTransitive(a, b[1..], c[1..]);
        }
      } else {
        SubsequenceTransitive(a, b, c[1..]);
      }
    }
  }

  lemma {:induction false} SubsequenceReflexive<T>(a: seq<T>)
    ensures IsSubsequence(a, a)
    decreases |a|
  {
    if |a| > 0 {
      SubsequenceReflexive(a[1..]);
    }
  }

  /** `peek()`: the front symbol, or nothing on an exhausted stream. */
  function Peek(s: Stream): Option<char> {
    if |s| == 0 then None else Some(s[0])
  }

  /** `next()`: `slice(1)`, which on an empty stream is the empty stream again. */
  function Next(s: Stream): (r: Stream)
    ensures IsSuffix(r, s)
    ensures |s| > 0 ==> |r| == |s| - 1
    ensures |s| == 0 ==> r == []
  {
    if |s| == 0 then [] else s[1..]
  }

  predicate HasNext(s: Stream) {
    |s| >= 1
  }

  predicate IsEmpty(s: Stream) {
    |s| == 0
  }

  /** A stream is its front symbol followed by its `next()`; an exhausted stream stays exhausted. */
  lemma PeekNext(s: Stream)
    ensures HasNext(s) <==> !IsEmpty(s)
    ensures HasNext(s) ==> Peek(s).Some? && s == [Peek(s).value] + Next(s)
    ensures IsEmpty(s) ==> Peek(s).None? && Next(s) == s
  {
  }

  /** `filter(predicate)`: the symbols that satisfy `keep`, in their original order. */
  function Filter(s: Stream, keep: char -> bool): (r: Stream)
    ensures forall i | 0 <= i < |r| :: keep(r[i])
    ensures IsSubsequence(r, s)
    decreases |s|
  {
    if |s| == 0 then []
    else
      var rest := Filter(s[1..], keep);
      assert s == [s[0]] + s[1..];
      if keep(s[0]) then [s[0]] + rest
      else
        SubsequenceOfTail(rest, s, 1);
        rest
  }

  /** `filter` keeps every occurrence of a kept symbol and none of the others. */
  lemma {:induction false} FilterCounts(s: Stream, keep: char -> bool)
    ensures forall c :: multiset(Filter(s, keep))[c] == if keep(c) then multiset(s)[c] else 0
    decreases |s|
  {
    if |s| > 0 {
      FilterCounts(s[1..], keep);
      assert s == [s[0]] + s[1..];
      assert multiset(s) == multiset{s[0]} + multiset(s[1..]);
    }
  }

  /** Filtering a concatenation filters each part. */
  lemma {:induction false} FilterConcat(a: Stream, b: Stream, keep: char -> bool)
    ensures Filter(a + b, keep) == Filter(a, keep) + Filter(b, keep)
    decreases |a|
  {
    if |a| > 0 {
      var ab := a + b;
      assert ab[0] == a[0] && ab[1..] == a[1..] + b;
      FilterConcat(a[1..], b, keep);
      var head: Stream := if keep(a[0]) then [a[0]] else [];
      assert Filter(ab, keep) == head + Filter(a[1..] + b, keep);
      assert Filter(a, keep) == head + Filter(a[1..], keep);
      assert head + (Filter(a[1..], keep) + Filter(b, keep))
          == (head + Filter(a[1..], keep)) + Filter(b, keep);
    } else {
      assert a + b == b;
    }
  }

  /** A stream whose every symbol is kept comes through unchanged. */
  lemma {:induction false} FilterKeepsAll(s: Stream, keep: char -> bool)
    requires forall i | 0 <= i < |s| :: keep(s[i])
    ensures Filter(s, keep) == s
    decreases |s|
  {
    if |s| > 0 {
      FilterKeepsAll(s[1..], keep);
    }
  }

  /**
   * `or(...rules)`: the result of the first rule that does not throw; when
   * every rule throws, the error of the last one (or `accError`, JS's initial
   * `null`, when there is no rule at all). Rules are pure, so trying them in
   * order and computing them up front give the same answer.
   */
  function Or<T, E>(rules: seq<Result<T, E>>, accError: E): (r: Result<T, E>)
    ensures r.Failure? ==>
              if |rules| == 0 then r.error == accError
              else rules[|rules| - 1].Failure? && r.error == rules[|rules| - 1].error
    decreases |rules|
  {
    if |rules| == 0 then Failure(accError)
    else if rules[0].Success? then rules[0]
    else Or(rules[1..], rules[0].error)
  }

  /**
   * What `or` promises: it succeeds exactly when some rule does, with the
   * result of the first rule that succeeds; otherwise it fails with the last
   * rule's error.
   */
  lemma {:induction false} OrChoosesFirstSuccess<T, E>(rules: seq<Result<T, E>>, accError: E)
    ensures Or(rules, accError).Success? <==> exists i | 0 <= i < |rules| :: rules[i].Success?
    ensures forall i | 0 <= i < |rules| && rules[i].Success? ::
              (forall j | 0 <= j < i :: rules[j].Failure?) ==> Or(rules, accError) == rules[i]
    ensures Or(rules, accError).Failure? ==>
              Or(rules, accError).error == if |rules| == 0 then accError else rules[|rules| - 1].error
    decreases |rules|
  {
    if |rules| > 0 && rules[0].Failure? {
      OrChoosesFirstSuccess(rules[1..], rules[0].error);
      assert forall i | 1 <= i < |rules| :: rules[i] == rules[1..][i - 1];
    }
  }

  /** `or` of two rules: the first if it succeeds, otherwise whatever the second gives. */
  lemma OrOfTwo<T, E>(a: Result<T, E>, b: Result<T, E>, accError: E)
    ensures Or([a, b], accError) == if a.Success? then a else b
  {
    if a.Failure? {
      assert [a, b][1..] == [b];
      assert Or([a, b], accError) == Or([b], a.error);
      if b.Failure? {
        assert [b][1..] == [];
        assert Or([b], a.error) == Or([], b.error);
      }
    }
  }

  /** `or` of three rules, as a cascade. */
  lemma OrOfThree<T, E>(a: Result<T, E>, b: Result<T, E>, c: Result<T, E>, accError: E)
    ensures Or([a, b, c], accError) == if a.Success? then a else if b.Success? then b else c
  {
    if a.Failure? {
      assert [a, b, c][1..] == [b, c];
      OrOfTwo(b, c, a.error);
    }
  }

  /** `or` of four rules, as a cascade. */
  lemma OrOfFour<T, E>(a: Result<T, E>, b: Result<T, E>, c: Result<T, E>, d: Result<T, E>, accError: E)
    ensures Or([a, b, c, d], accError) ==
            if a.Success? then a else if b.Success? then b else if c.Success? then c else d
  {
    if a.Failure? {
      assert [a, b, c, d][1..] == [b, c, d];
      OrOfThree(b, c, d, a.error);
    }
  }

  /** One row of a `returnOne` table. */
  datatype Case<!T, V> = Case(holds: T -> bool, value: T -> V)

  /**
   * `returnOne(listOfPredicates, defaultValue)(input)`: the value of the first
   * row whose predicate holds of `input`, or `default` when none does.
   */
  function ReturnOne<T, V>(table: seq<Case<T, V>>, default: V, input: T): (r: V)
    ensures forall i | 0 <= i < |table| && table[i].holds(input) ::
              (forall j | 0 <= j < i :: !table[j].holds(input)) ==> r == table[i].value(input)
    ensures (forall i | 0 <= i < |table| :: !table[i].holds(input)) ==> r == default
    decreases |table|
  {
    if |table| == 0 then default
    else if table[0].holds(input) then table[0].value(input)
    else
      var r := ReturnOne(table[1..], default, input);
      assert forall i | 1 <= i < |table| :: table[i] == table[1..][i - 1];
      r
  }
}
